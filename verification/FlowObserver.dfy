/** The browser-flow observer: every rate-limited response must use up one paced reservation of its path. */
module FlowObserver {
  import opened Wrappers
  import opened RatePolicies
  import opened Sequences

  /** `BrowserFlowObservation` as far as pacing is concerned: external responses carry no path. */
  datatype Observation = Observation(status: int, sameOriginPath: Option<string>)

  predicate RateLimited(o: Observation) {
    o.sameOriginPath.Some? && Classify(o.sameOriginPath.value).Some?
  }

  /** The paths of the rate-limited responses, in order. */
  function LimitedPaths(observations: seq<Observation>): seq<string> {
    if observations == [] then []
    else if RateLimited(observations[0]) then [observations[0].sameOriginPath.value] + LimitedPaths(observations[1..])
    else LimitedPaths(observations[1..])
  }

  /** Only the path decides: a same-origin response below one of the five families is limited, whatever its status. */
  lemma LimitedIff(o: Observation)
    ensures RateLimited(o) <==>
            && o.sameOriginPath.Some?
            && var path := o.sameOriginPath.value;
            || Covers("/oauth2", path) || Covers("/login/oauth2", path) || Covers("/auth", path)
            || Covers("/logout", path) || Covers("/api", path)
  {
    hide Covers, Classify;
    if o.sameOriginPath.Some? {
      ClassifiedByFamily(o.sameOriginPath.value);
      match Classify(o.sameOriginPath.value)
      case Some(p) => assert PacedAs(o.sameOriginPath.value, p.name);
      case None =>
    }
  }

  function IndexOf(paths: seq<string>, path: string): nat
    requires path in paths
    ensures IndexOf(paths, path) < |paths| && paths[IndexOf(paths, path)] == path
  {
    if paths[0] == path then 0 else 1 + IndexOf(paths[1..], path)
  }

  /** `list.remove`: the first occurrence goes. */
  function RemoveFirst(paths: seq<string>, path: string): (r: seq<string>)
    requires path in paths
    ensures multiset(r) == multiset(paths) - multiset{path}
  {
    DropAtContents(paths, IndexOf(paths, path));
    DropAt(paths, IndexOf(paths, path))
  }

  /** The first response path for which no reservation is left, if any. */
  function FirstBypass(paths: seq<string>, reserved: multiset<string>): Option<string> {
    if paths == [] then None
    else if paths[0] in reserved then FirstBypass(paths[1..], reserved - multiset{paths[0]})
    else Some(paths[0])
  }

  // ---------------------------------------------------------------- requests and responses

  /** One paused-and-continued request, or one response; foreign requests are continued without a reservation. */
  datatype Event = Continued(sameOriginPath: Option<string>) | Responded(status: int, sameOriginPath: Option<string>)

  datatype Flow = Flow(observations: seq<Observation>, pacedPaths: seq<string>, open: multiset<Option<string>>)

  /** `_continue_paced_gateway_request` reserves before it continues; a response answers one open request. */
  function Next(flow: Flow, event: Event): Option<Flow> {
    match event
    case Continued(path) =>
      Some(flow.(pacedPaths := if path.Some? then flow.pacedPaths + [path.value] else flow.pacedPaths,
                 open := flow.open + multiset{path}))
    case Responded(status, path) =>
      if path in flow.open
      then Some(flow.(observations := flow.observations + [Observation(status, path)],
                      open := flow.open - multiset{path}))
      else None
  }

  function Run(flow: Flow, events: seq<Event>): Option<Flow>
    decreases |events|
  {
    if events == [] then Some(flow)
    else match Next(flow, events[0])
      case Some(next) => Run(next, events[1..])
      case None => None
  }

  /** Responses and open requests together use each reservation at most once. */
  ghost predicate Accounted(flow: Flow) {
    forall path ::
      multiset(LimitedPaths(flow.observations))[path] + flow.open[Some(path)] <= multiset(flow.pacedPaths)[path]
  }

  // ---------------------------------------------------------------- the observer

  class BrowserFlowObserver {
    var observations: seq<Observation>
    var pacedPaths: seq<string>
    ghost var open: multiset<Option<string>>   // requests that were continued and not yet answered

    ghost function History(): Flow
      reads this
    {
      Flow(observations, pacedPaths, open)
    }

    constructor ()
      ensures History() == Flow([], [], multiset{}) && Accounted(History())
    {
      observations, pacedPaths, open := [], [], multiset{};
    }

    method RecordPacedPath(path: string)
      modifies this`pacedPaths
      ensures pacedPaths == old(pacedPaths) + [path]
    {
      pacedPaths := pacedPaths + [path];
    }

    /** `_continue_paced_gateway_request`: a request to the gateway is reserved before it is continued. */
    method ContinueRequest(sameOriginPath: Option<string>)
      modifies this
      ensures Some(History()) == Next(old(History()), Continued(sameOriginPath))
      ensures old(Accounted(History())) ==> Accounted(History())
    {
      if Accounted(History()) {
        NextAccounted(History(), Continued(sameOriginPath));
      }
      if sameOriginPath.Some? {
        RecordPacedPath(sameOriginPath.value);
      }
      open := open + multiset{sameOriginPath};
    }

    /** A response to a request that was never continued is recorded like any other. */
    method RecordResponse(status: int, sameOriginPath: Option<string>)
      modifies this
      ensures observations == old(observations) + [Observation(status, sameOriginPath)] && pacedPaths == old(pacedPaths)
      ensures sameOriginPath in old(open) ==> Some(History()) == Next(old(History()), Responded(status, sameOriginPath))
      ensures sameOriginPath in old(open) && old(Accounted(History())) ==> Accounted(History())
    {
      if sameOriginPath in open && Accounted(History()) {
        NextAccounted(History(), Responded(status, sameOriginPath));
      }
      observations := observations + [Observation(status, sameOriginPath)];
      open := open - multiset{sameOriginPath};
    }

    /** `assert_rate_limited_responses_were_paced`; the result is the path the error would name. */
    method CheckPaced() returns (bypass: Option<string>)
      ensures bypass == FirstBypass(LimitedPaths(observations), multiset(pacedPaths))
      ensures bypass.None? <==> multiset(LimitedPaths(observations)) <= multiset(pacedPaths)
      ensures Accounted(History()) ==> bypass.None?
    {
      Containment(LimitedPaths(observations), multiset(pacedPaths));
      var remaining := pacedPaths;
      assert observations[0..] == observations;
      for i := 0 to |observations|
        invariant FirstBypass(LimitedPaths(observations[i..]), multiset(remaining))
               == FirstBypass(LimitedPaths(observations), multiset(pacedPaths))
      {
        assert observations[i..][1..] == observations[i + 1..];
        var o := observations[i];
        if RateLimited(o) {
          var path := o.sameOriginPath.value;
          LimitedHead(observations[i..]);
          if path !in remaining {
            return Some(path);
          }
          remaining := RemoveFirst(remaining, path);
        }
      }
      return None;
    }
  }

  lemma LimitedHead(observations: seq<Observation>)
    requires observations != [] && RateLimited(observations[0])
    ensures LimitedPaths(observations)[0] == observations[0].sameOriginPath.value
    ensures LimitedPaths(observations)[1..] == LimitedPaths(observations[1..])
  {
  }

  /** The check passes exactly when the limited responses are contained, with multiplicity, in the reservations. */
  lemma {:induction false} Containment(paths: seq<string>, reserved: multiset<string>)
    ensures FirstBypass(paths, reserved).None? <==> multiset(paths) <= reserved
  {
    if paths != [] {
      var rest := reserved - multiset{paths[0]};
      assert paths == [paths[0]] + paths[1..];
      assert multiset(paths) == multiset{paths[0]} + multiset(paths[1..]);
      if paths[0] in reserved {
        Containment(paths[1..], rest);
        assert reserved == rest + multiset{paths[0]};
      } else {
        assert multiset(paths)[paths[0]] > reserved[paths[0]];
      }
    }
  }

  // ---------------------------------------------------------------- containment is an injection

  /** Response `i` is answered by reservation `f[i]`, each reservation by at most one response. */
  predicate Matching(paths: seq<string>, reserved: seq<string>, f: seq<nat>) {
    && |f| == |paths|
    && (forall i :: 0 <= i < |f| ==> f[i] < |reserved| && reserved[f[i]] == paths[i])
    && (forall i, j :: 0 <= i < j < |f| ==> f[i] != f[j])
  }

  /** Every matching yields containment. */
  lemma {:induction false} MatchingContained(paths: seq<string>, reserved: seq<string>, f: seq<nat>)
    requires Matching(paths, reserved, f)
    ensures multiset(paths) <= multiset(reserved)
    decreases |paths|
  {
    if paths != [] {
      var n := |paths| - 1;
      var k, path := f[n], paths[n];
      var reserved' := DropAt(reserved, k);
      var f' := seq(n, i requires 0 <= i < n => if f[i] < k then f[i] else f[i] - 1);
      DropAtContents(reserved, k);
      assert paths == paths[..n] + [path];
      MatchingContained(paths[..n], reserved', f');
    }
  }

  lemma ContainedRest(a: multiset<string>, b: multiset<string>, path: string)
    requires a + multiset{path} <= b + multiset{path}
    ensures a <= b
  {
    forall x ensures a[x] <= b[x] {
      assert (a + multiset{path})[x] <= (b + multiset{path})[x];
    }
  }

  lemma TakeOut(paths: seq<string>, reserved: seq<string>) returns (k: nat)
    requires paths != [] && multiset(paths) <= multiset(reserved)
    ensures k < |reserved| && reserved[k] == paths[|paths| - 1]
    ensures multiset(paths[..|paths| - 1]) <= multiset(DropAt(reserved, k))
  {
    var n := |paths| - 1;
    var path := paths[n];
    assert paths == paths[..n] + [path];
    assert multiset(paths) == multiset(paths[..n]) + multiset{path};
    assert path in multiset(paths);
    k := IndexOf(reserved, path);
    DropAtContents(reserved, k);
    ContainedRest(multiset(paths[..n]), multiset(DropAt(reserved, k)), path);
  }

  /** A matching into the reservations without `k`, re-indexed, plus `k` for the last path. */
  lemma ExtendMatching(paths: seq<string>, reserved: seq<string>, k: nat, g: seq<nat>) returns (f: seq<nat>)
    requires paths != [] && k < |reserved| && reserved[k] == paths[|paths| - 1]
    requires Matching(paths[..|paths| - 1], DropAt(reserved, k), g)
    ensures Matching(paths, reserved, f)
  {
    var n := |paths| - 1;
    f := seq(n, i requires 0 <= i < n => if g[i] < k then g[i] else g[i] + 1) + [k];
  }

  /** Containment yields a matching. */
  lemma {:induction false} ContainedMatching(paths: seq<string>, reserved: seq<string>) returns (f: seq<nat>)
    requires multiset(paths) <= multiset(reserved)
    ensures Matching(paths, reserved, f)
    decreases |paths|
  {
    hide Matching;
    if paths == [] {
      f := [];
      NothingToMatch(paths, reserved);
    } else {
      var k := TakeOut(paths, reserved);
      var g := ContainedMatching(paths[..|paths| - 1], DropAt(reserved, k));
      f := ExtendMatching(paths, reserved, k, g);
    }
  }

  lemma NothingToMatch(paths: seq<string>, reserved: seq<string>)
    requires paths == []
    ensures Matching(paths, reserved, [])
  {
  }

  /** The check passes if and only if the rate-limited responses inject into the reservations of equal paths. */
  lemma PassesIffInjection(observations: seq<Observation>, pacedPaths: seq<string>)
    ensures FirstBypass(LimitedPaths(observations), multiset(pacedPaths)).None?
       <==> exists f :: Matching(LimitedPaths(observations), pacedPaths, f)
  {
    var paths := LimitedPaths(observations);
    Containment(paths, multiset(pacedPaths));
    if f :| Matching(paths, pacedPaths, f) {
      MatchingContained(paths, pacedPaths, f);
    } else if multiset(paths) <= multiset(pacedPaths) {
      var f := ContainedMatching(paths, pacedPaths);
      assert false;
    }
  }

  // ---------------------------------------------------------------- well-behaved runs never fail

  lemma {:induction false} LimitedAppend(observations: seq<Observation>, o: Observation)
    ensures LimitedPaths(observations + [o])
         == LimitedPaths(observations) + (if RateLimited(o) then [o.sameOriginPath.value] else [])
  {
    hide RateLimited;
    if observations == [] {
      assert [o][1..] == [];
    } else {
      assert (observations + [o])[1..] == observations[1..] + [o];
      LimitedAppend(observations[1..], o);
    }
  }

  lemma NextAccounted(flow: Flow, event: Event)
    requires Accounted(flow) && Next(flow, event).Some?
    ensures Accounted(Next(flow, event).value)
  {
    if event.Responded? {
      LimitedAppend(flow.observations, Observation(event.status, event.sameOriginPath));
    }
  }

  /** In every run where each response follows its own continued request, the check passes at every point. */
  lemma {:induction false} AnsweredRunsPass(flow: Flow, events: seq<Event>)
    requires Accounted(flow) && Run(flow, events).Some?
    ensures var end := Run(flow, events).value;
            Accounted(end) && FirstBypass(LimitedPaths(end.observations), multiset(end.pacedPaths)).None?
    decreases |events|
  {
    if events == [] {
      Containment(LimitedPaths(flow.observations), multiset(flow.pacedPaths));
    } else {
      NextAccounted(flow, events[0]);
      AnsweredRunsPass(Next(flow, events[0]).value, events[1..]);
    }
  }

  /** From a new observer on, the check passes at every point of every such run. */
  lemma NewObserverPasses(events: seq<Event>)
    requires Run(Flow([], [], multiset{}), events).Some?
    ensures var end := Run(Flow([], [], multiset{}), events).value;
            FirstBypass(LimitedPaths(end.observations), multiset(end.pacedPaths)).None?
  {
    AnsweredRunsPass(Flow([], [], multiset{}), events);
  }
}
