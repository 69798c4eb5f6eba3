/** Backlogs under exact sleeps: waits that queue up at a pacer are released exactly one interval apart. */
module Backlog {
  import opened Wrappers
  import opened RatePolicies
  import opened Pacing

  /** Sleeps are exact and nothing inside `wait` takes time but the lock and the sleep. */
  predicate ExactSleeps(w: World, event: Event) {
    event.Pass? ==> forall t :: t in w.threads ==>
      w.threads[t].Blocked? || (w.threads[t].Sleeping? && w.clock + event.duration <= w.threads[t].until)
  }

  /** In addition, no thread is left standing at a free lock. */
  predicate Prompt(w: World, event: Event)
    requires Placed(w)
  {
    && ExactSleeps(w, event)
    && (event.Pass? ==> forall t :: t in w.threads && w.threads[t].Blocked?
                                    ==> w.pacers[PolicyOf(w.threads[t].path)].holder.Some?)
  }

  /** A run of exact sleeps, and a prompt one where `prompt` is set. */
  predicate Timely(w: World, events: seq<Event>, prompt: bool)
    decreases |events|
  {
    events == [] ||
    (&& Next(w, events[0]).Some?
     && ExactSleeps(w, events[0]) && (prompt ==> Prompt(w, events[0]))
     && Timely(Next(w, events[0]).value, events[1..], prompt))
  }

  function PacerOf(w: World, name: PolicyName): Pacer
    requires Placed(w)
  {
    w.pacers[name]
  }

  function Mine(w: World, t: Thread): Pacer
    requires Placed(w) && t in w.threads
  {
    PacerOf(w, PolicyOf(w.threads[t].path))
  }

  /** A thread has just read the clock, or sleeps until exactly the reserved time. */
  predicate Tight(w: World)
    requires Placed(w)
  {
    forall t :: t in w.threads ==> TightStage(w.threads[t], Mine(w, t).next, w.clock)
  }

  predicate TightStage(stage: Stage, next: Option<real>, clock: real) {
    match stage
    case Timed(_, now) => now == clock
    case Sleeping(_, until) => until == clock + Delay(next, clock)
    case _ => true
  }

  predicate Moves(event: Event, t: Thread) {
    !event.Pass? && event.thread == t
  }

  /** A step moves the clock or one thread, and only a release changes what a pacer reserves. */
  lemma StepShape(w: World, event: Event)
    requires Invariant(w) && Next(w, event).Some?
    ensures Placed(w) && Placed(Next(w, event).value)
    ensures var w' := Next(w, event).value;
            && w'.clock == (if event.Pass? then w.clock + event.duration else w.clock)
            && (event.Pass? ==> event.duration >= 0.0)
            && (forall t :: !Moves(event, t) ==> (t in w.threads <==> t in w'.threads))
            && (forall t :: !Moves(event, t) && t in w.threads ==> w'.threads[t] == w.threads[t])
    ensures event.Release? ==> event.thread in w.threads && w.threads[event.thread].Awake?
    ensures forall name :: !(event.Release? && PolicyOf(w.threads[event.thread].path) == name) ==>
              && PacerOf(Next(w, event).value, name).next == PacerOf(w, name).next
              && PacerOf(Next(w, event).value, name).releases == PacerOf(w, name).releases
  {
    hide Classified, Classify, Interval, PolicyOf, Invariant, PacerSound, HolderSound, StageSound;
    NextKeeps(w, event);
    Unfold(w);
    Unfold(Next(w, event).value);
  }

  /** Where the thread that moves ends up. */
  lemma OwnStep(w: World, event: Event, t: Thread)
    requires Invariant(w) && Next(w, event).Some? && Moves(event, t) && t in Next(w, event).value.threads
             && t in w.threads
    ensures Placed(w) && Placed(Next(w, event).value)
    ensures var stage, stage' := w.threads[t], Next(w, event).value.threads[t];
            && stage'.path == stage.path
            && match stage
               case Blocked(_) => stage'.Locked? && event.Lock?
               case Locked(path) => stage' == Timed(path, w.clock)
               case Timed(path, now) => stage' == Sleeping(path, w.clock + Delay(Mine(w, t).next, now))
               case Sleeping(_, until) => stage'.Awake? && w.clock >= until
               case Awake(_) => false
  {
    hide Classified, Classify, Interval, PolicyOf, Invariant, PacerSound, HolderSound, StageSound;
    NextKeeps(w, event);
    Unfold(w);
    Unfold(Next(w, event).value);
  }

  /** Whoever has the lock of a pacer is alone past it. */
  lemma OneHolder(w: World, t: Thread, u: Thread)
    requires Invariant(w) && Placed(w) && t in w.threads && u in w.threads && !w.threads[t].Blocked?
             && !w.threads[u].Blocked?
    requires PolicyOf(w.threads[t].path) == PolicyOf(w.threads[u].path)
    ensures t == u && Mine(w, t).holder == Some(t)
  {
    hide Classified, Classify, PolicyOf, Invariant, PacerSound, HolderSound;
    Unfold(w);
    assert StageSound(Mine(w, t), t, w.threads[t], w.clock);
    assert StageSound(Mine(w, u), u, w.threads[u], w.clock);
  }

  lemma TightPass(stage: Stage, next: Option<real>, clock: real, d: real)
    requires TightStage(stage, next, clock) && d >= 0.0
    requires stage.Blocked? || (stage.Sleeping? && clock + d <= stage.until)
    ensures TightStage(stage, next, clock + d)
  {
  }

  lemma NextTight(w: World, event: Event)
    requires Invariant(w) && Tight(w) && Next(w, event).Some? && ExactSleeps(w, event)
    ensures Invariant(Next(w, event).value) && Tight(Next(w, event).value)
  {
    hide Classified, Classify, PolicyOf, Invariant, Next;
    NextKeeps(w, event);
    StepShape(w, event);
    var w' := Next(w, event).value;
    forall t | t in w'.threads ensures TightStage(w'.threads[t], Mine(w', t).next, w'.clock) {
      if Moves(event, t) {
        if t in w.threads {
          OwnStep(w, event, t);
        } else {
          Arrival(w, event);
        }
      } else if event.Pass? {
        TightPass(w.threads[t], Mine(w, t).next, w.clock, event.duration);
      } else if event.Release? && !w.threads[t].Blocked?
      && PolicyOf(w.threads[t].path) == PolicyOf(w.threads[event.thread].path) {
        OneHolder(w, t, event.thread);
      }
    }
  }

  lemma Arrival(w: World, event: Event)
    requires Next(w, event).Some? && !event.Pass? && event.thread in Next(w, event).value.threads
             && event.thread !in w.threads
    ensures event.Call? && Next(w, event).value.threads[event.thread] == Blocked(event.path)
  {
    hide Classified, Classify, PolicyOf;
  }

  lemma {:induction false} TimelyKeeps(w: World, events: seq<Event>, prompt: bool)
    requires Invariant(w) && Tight(w) && Timely(w, events, prompt)
    ensures Run(w, events).Some?
    ensures Invariant(Run(w, events).value) && Tight(Run(w, events).value)
    decreases |events|
  {
    hide Invariant, Next, Tight, ExactSleeps, Prompt;
    if events != [] {
      NextTight(w, events[0]);
      TimelyKeeps(Next(w, events[0]).value, events[1..], prompt);
    }
  }

  lemma StartTight(w: World)
    requires Start(w)
    ensures Invariant(w) && Tight(w)
  {
    StartInvariant(w);
  }

  // ---------------------------------------------------------------- one wait that found a delay

  /** The thread holds the lock and goes for the reserved time, which has not passed. */
  predicate Committed(w: World, t: Thread)
    requires Placed(w)
  {
    && t in w.threads && Mine(w, t).next.Some? && Mine(w, t).holder == Some(t)
    && var at := Mine(w, t).next.value;
    match w.threads[t]
    case Timed(_, now) => now == w.clock < at
    case Sleeping(_, until) => w.clock <= until == at
    case Awake(_) => w.clock == at
    case _ => false
  }

  lemma CommittedStep(w: World, event: Event, t: Thread)
    requires Invariant(w) && Tight(w) && Committed(w, t) && Next(w, event).Some? && ExactSleeps(w, event)
             && event != Release(t)
    ensures Invariant(Next(w, event).value)
    ensures var w' := Next(w, event).value;
            && Committed(w', t) && w'.threads[t].path == w.threads[t].path
            && Mine(w', t).releases == Mine(w, t).releases && Mine(w', t).next == Mine(w, t).next
  {
    hide Classified, Classify, PolicyOf, Invariant, Next;
    NextKeeps(w, event);
    StepShape(w, event);
    Stays(w, event, t);
    var w' := Next(w, event).value;
    if event.Release? && PolicyOf(w.threads[t].path) == PolicyOf(w.threads[event.thread].path) {
      OneHolder(w, t, event.thread);
    }
    if Moves(event, t) {
      OwnStep(w, event, t);
    }
    OneHolder(w', t, t);
  }

  /** A thread leaves `wait` by its release only. */
  lemma Stays(w: World, event: Event, t: Thread)
    requires Next(w, event).Some? && t in w.threads && event != Release(t)
    ensures t in Next(w, event).value.threads
  {
    hide Classified, Classify, PolicyOf;
  }

  lemma {:induction false} CommittedRun(w: World, events: seq<Event>, t: Thread)
    requires Invariant(w) && Tight(w) && Committed(w, t) && Timely(w, events, false) && Release(t) !in events
    ensures Run(w, events).Some? && Invariant(Run(w, events).value)
    ensures var w' := Run(w, events).value;
            Committed(w', t) && w'.threads[t].path == w.threads[t].path
            && Mine(w', t).releases == Mine(w, t).releases && Mine(w', t).next == Mine(w, t).next
    decreases |events|
  {
    hide Invariant, Next, Tight, ExactSleeps, Committed;
    if events != [] {
      NextTight(w, events[0]);
      CommittedStep(w, events[0], t);
      CommittedRun(Next(w, events[0]).value, events[1..], t);
    }
  }

  /**
   In every run with exact sleeps, however the other threads and pacers interleave, a wait that found a delay
   is released exactly one interval after the release before it.
   */
  lemma DelayedWaitIsExact(start: World, before: seq<Event>, t: Thread, during: seq<Event>)
    requires Start(start) && Timely(start, before, false) && Run(start, before).Some?
             && Placed(Run(start, before).value)
    requires var w := Run(start, before).value;
             && t in w.threads && w.threads[t].Timed? && Delay(Mine(w, t).next, w.threads[t].now) > 0.0
             && Timely(w, during, false) && Release(t) !in during && Run(w, during).Some?
             && Next(Run(w, during).value, Release(t)).Some?
    ensures var w := Run(start, before).value;
            var name := PolicyOf(w.threads[t].path);
            var releases := w.pacers[name].releases;
            var end := Next(Run(w, during).value, Release(t)).value;
            && releases != [] && name in end.pacers
            && end.pacers[name].releases == releases + [releases[|releases| - 1] + Interval(name)]
  {
    hide Invariant, Next, Tight, Timely, Committed, Run, Start, Classified, Classify, PolicyOf, Interval, Delay;
    StartTight(start);
    TimelyKeeps(start, before, false);
    var w := Run(start, before).value;
    CommittedStart(w, t);
    CommittedRun(w, during, t);
    CommittedEnd(Run(w, during).value, t);
  }

  lemma CommittedStart(w: World, t: Thread)
    requires Invariant(w) && Tight(w) && t in w.threads && w.threads[t].Timed?
             && Delay(Mine(w, t).next, w.threads[t].now) > 0.0
    ensures Committed(w, t)
  {
    OneHolder(w, t, t);
  }

  lemma CommittedEnd(w: World, t: Thread)
    requires Invariant(w) && Committed(w, t) && Next(w, Release(t)).Some?
    ensures Placed(Next(w, Release(t)).value) && Mine(w, t).releases != []
    ensures var name, releases := PolicyOf(w.threads[t].path), Mine(w, t).releases;
            PacerOf(Next(w, Release(t)).value, name).releases == releases + [releases[|releases| - 1] + Interval(name)]
  {
    hide Classified, Classify, PolicyOf, Invariant, Interval, HolderSound, StageSound;
    Unfold(w);
    NextKeeps(w, Release(t));
    Unfold(Next(w, Release(t)).value);
    assert PacerSound(PolicyOf(w.threads[t].path), Mine(w, t), w.clock);
  }

  // ---------------------------------------------------------------- a queue

  /** The threads inside `wait` for one pacer. */
  function Queue(w: World, name: PolicyName): set<Thread>
    requires Placed(w)
  {
    set t | t in w.threads && PolicyOf(w.threads[t].path) == name
  }

  /** The reserved time has not passed while anybody waits. */
  predicate Behind(w: World, name: PolicyName)
    requires Placed(w)
  {
    PacerOf(w, name).next.Some? && (Queue(w, name) != {} ==> w.clock <= PacerOf(w, name).next.value)
  }

  /** Time passes only up to the reserved time: whoever holds the lock sleeps until then. */
  lemma PassStaysBehind(w: World, d: real, name: PolicyName)
    requires Invariant(w) && Tight(w) && Behind(w, name) && Queue(w, name) != {} && d >= 0.0 && Prompt(w, Pass(d))
    ensures w.clock + d <= PacerOf(w, name).next.value
  {
    hide Classified, Classify, Interval, PolicyOf, Invariant, PacerSound;
    Unfold(w);
    var t :| t in Queue(w, name);
    if w.threads[t].Blocked? {
      var h := w.pacers[name].holder.value;
      assert HolderSound(w.threads, name, w.pacers[name]);
      assert StageSound(Mine(w, h), h, w.threads[h], w.clock);
      SleeperBound(w, d, h);
    } else {
      SleeperBound(w, d, t);
    }
  }

  lemma SleeperBound(w: World, d: real, t: Thread)
    requires Placed(w) && Tight(w) && t in w.threads && !w.threads[t].Blocked? && ExactSleeps(w, Pass(d))
    requires Mine(w, t).next.Some? && w.clock <= Mine(w, t).next.value
    ensures w.clock + d <= Mine(w, t).next.value
  {
  }

  /** A step of a prompt run releases nobody, or somebody exactly one interval after the last release. */
  lemma BehindStep(w: World, event: Event, name: PolicyName)
    requires Invariant(w) && Tight(w) && Behind(w, name) && Queue(w, name) != {}
    requires Next(w, event).Some? && Prompt(w, event)
    ensures Invariant(Next(w, event).value) && Behind(Next(w, event).value, name)
    ensures var w', p := Next(w, event).value, PacerOf(w, name);
            && p.releases != []
            && ((PacerOf(w', name).releases == p.releases && Queue(w, name) <= Queue(w', name))
                || (&& event.Release? && event.thread in Queue(w, name)
                    && Queue(w', name) == Queue(w, name) - {event.thread}
                    && PacerOf(w', name).releases == p.releases + [p.releases[|p.releases| - 1] + Interval(name)]))
  {
    hide Classified, Classify, Interval, PolicyOf, Invariant, Next;
    NextKeeps(w, event);
    StepShape(w, event);
    Unfold(w);
    assert PacerSound(name, w.pacers[name], w.clock);
    var w' := Next(w, event).value;
    if event.Release? && event.thread in Queue(w, name) {
      ReleaseBehind(w, event.thread, name);
    } else {
      if event.Pass? {
        PassStaysBehind(w, event.duration, name);
      }
      forall t | t in Queue(w, name) ensures t in Queue(w', name) {
        if Moves(event, t) {
          Stays(w, event, t);
          OwnStep(w, event, t);
        }
      }
    }
  }

  lemma ReleaseBehind(w: World, t: Thread, name: PolicyName)
    requires Invariant(w) && Behind(w, name) && t in Queue(w, name) && Next(w, Release(t)).Some?
    ensures Placed(Next(w, Release(t)).value) && Behind(Next(w, Release(t)).value, name)
            && PacerOf(w, name).releases != []
    ensures var w', p := Next(w, Release(t)).value, PacerOf(w, name);
            && Queue(w', name) == Queue(w, name) - {t}
            && PacerOf(w', name).releases == p.releases + [p.releases[|p.releases| - 1] + Interval(name)]
  {
    hide Classified, Classify, Interval, PolicyOf, Invariant, HolderSound;
    NextKeeps(w, Release(t));
    Unfold(w);
    Unfold(Next(w, Release(t)).value);
    IntervalPositive(name);
    assert PacerSound(name, w.pacers[name], w.clock);
    assert StageSound(Mine(w, t), t, w.threads[t], w.clock);
  }

  lemma IntervalPositive(name: PolicyName)
    ensures Interval(name) > 0.0
  {
  }

  lemma {:induction false} SubsetSize<T>(a: set<T>, b: set<T>)
    requires a <= b
    ensures |a| <= |b|
  {
    if a != {} {
      var x :| x in a;
      SubsetSize(a - {x}, b - {x});
    }
  }

  /** The first `n` entries that `later` adds to `earlier` continue it exactly one interval apart. */
  predicate Continues(earlier: seq<real>, later: seq<real>, n: nat, interval: real)
    requires earlier != []
  {
    && earlier <= later
    && forall i :: |earlier| <= i < |later| && i < |earlier| + n ==>
         later[i] == earlier[|earlier| - 1] + Span(i - |earlier| + 1, interval)
  }

  lemma ContinuesFewer(earlier: seq<real>, later: seq<real>, m: nat, n: nat, interval: real)
    requires earlier != [] && m <= n && Continues(earlier, later, n, interval)
    ensures Continues(earlier, later, m, interval)
  {
  }

  lemma ContinuesAfter(earlier: seq<real>, next: seq<real>, later: seq<real>, n: nat, interval: real)
    requires earlier != [] && n > 0 && next == earlier + [earlier[|earlier| - 1] + interval]
    requires Continues(next, later, n - 1, interval)
    ensures Continues(earlier, later, n, interval)
  {
    hide Span;
    SpanStep(0, interval);
    var m := |earlier|;
    assert later[..|next|] == next && later[..m] == next[..m] == earlier && later[m] == next[m];
    forall i | m <= i < |later| && i < m + n ensures later[i] == earlier[m - 1] + Span(i - m + 1, interval) {
      if i > m {
        SpanStep(i - m, interval);
        assert later[i] == next[m] + Span(i - |next| + 1, interval);
      }
    }
  }

  lemma {:induction false} BacklogDrains(w: World, events: seq<Event>, name: PolicyName)
    requires Invariant(w) && Tight(w) && Behind(w, name) && Timely(w, events, true)
    requires PacerOf(w, name).releases != []
    ensures Run(w, events).Some? && Invariant(Run(w, events).value)
    ensures Queue(w, name) != {} ==>
              Continues(PacerOf(w, name).releases, PacerOf(Run(w, events).value, name).releases, |Queue(w, name)|,
                        Interval(name))
    decreases |events|
  {
    hide Invariant, Next, Tight, ExactSleeps, Prompt, Behind, Queue, Continues, Interval, PolicyOf, HolderSound,
      PacerSound, StageSound;
    Unfold(w);
    TimelyKeeps(w, events, true);
    Unfold(Run(w, events).value);
    if events == [] {
      ContinuesSelf(PacerOf(w, name).releases, |Queue(w, name)|, Interval(name));
    } else if Queue(w, name) != {} {
      var w' := Next(w, events[0]).value;
      NextTight(w, events[0]);
      Unfold(w');
      BehindStep(w, events[0], name);
      BacklogDrains(w', events[1..], name);
      var earlier, next, later := PacerOf(w, name).releases, PacerOf(w', name).releases,
                                  PacerOf(Run(w, events).value, name).releases;
      if next == earlier {
        SubsetSize(Queue(w, name), Queue(w', name));
        ContinuesFewer(earlier, later, |Queue(w, name)|, |Queue(w', name)|, Interval(name));
      } else {
        if Queue(w', name) == {} {
          ReleasesGrow(w', events[1..], name);
          ContinuesNone(next, later, Interval(name));
        }
        ContinuesAfter(earlier, next, later, |Queue(w, name)|, Interval(name));
      }
    }
  }

  lemma ContinuesSelf(releases: seq<real>, n: nat, interval: real)
    requires releases != []
    ensures Continues(releases, releases, n, interval)
  {
  }

  lemma ContinuesNone(earlier: seq<real>, later: seq<real>, interval: real)
    requires earlier != [] && earlier <= later
    ensures Continues(earlier, later, 0, interval)
  {
  }

  lemma {:induction false} ReleasesGrow(w: World, events: seq<Event>, name: PolicyName)
    requires Invariant(w) && Run(w, events).Some?
    ensures Invariant(Run(w, events).value) && PacerOf(w, name).releases <= PacerOf(Run(w, events).value, name).releases
    decreases |events|
  {
    hide Invariant, Next;
    RunKeeps(w, events);
    if events != [] {
      NextKeeps(w, events[0]);
      ReleasesGrowStep(w, events[0], name);
      ReleasesGrow(Next(w, events[0]).value, events[1..], name);
    }
  }

  lemma ReleasesGrowStep(w: World, event: Event, name: PolicyName)
    requires Invariant(w) && Next(w, event).Some?
    ensures Invariant(Next(w, event).value) && PacerOf(w, name).releases <= PacerOf(Next(w, event).value, name).releases
  {
    hide Classified, Classify, Interval, PolicyOf, Invariant, PacerSound, HolderSound, StageSound;
    NextKeeps(w, event);
    Unfold(w);
  }

  /**
   In every prompt run: once n waits are queued at a pacer before its reserved time, its next n releases come
   at exactly one, two, ... and n intervals after the last one, whatever else happens meanwhile.
   */
  lemma ExactBacklog(start: World, before: seq<Event>, name: PolicyName, during: seq<Event>)
    requires Start(start) && Timely(start, before, true) && Run(start, before).Some? && Placed(Run(start, before).value)
    requires var w := Run(start, before).value;
             && w.pacers[name].releases != [] && Queue(w, name) != {} && Timely(w, during, true)
             && w.clock <= w.pacers[name].releases[|w.pacers[name].releases| - 1] + Interval(name)
    ensures var w := Run(start, before).value;
            && Run(w, during).Some? && Placed(Run(w, during).value)
            && Continues(w.pacers[name].releases, Run(w, during).value.pacers[name].releases, |Queue(w, name)|,
                         Interval(name))
  {
    hide Run, Start, Classified, Classify, Interval, PolicyOf, Timely, HolderSound, Queue, Continues, StageSound,
      Invariant, Tight;
    StartTight(start);
    TimelyKeeps(start, before, true);
    var w := Run(start, before).value;
    Unfold(w);
    assert PacerSound(name, w.pacers[name], w.clock);
    BacklogDrains(w, during, name);
    Unfold(Run(w, during).value);
  }

  // ---------------------------------------------------------------- prompt runs go on

  /** Of finitely many sleepers some wakes first. */
  lemma {:induction false} FirstToWake(w: World, sleepers: set<Thread>) returns (t: Thread)
    requires sleepers != {} && forall u :: u in sleepers ==> u in w.threads && w.threads[u].Sleeping?
    ensures t in sleepers && forall u :: u in sleepers ==> w.threads[t].until <= w.threads[u].until
  {
    var s :| s in sleepers;
    var rest := sleepers - {s};
    if rest == {} {
      t := s;
      assert sleepers == {s};
    } else {
      t := FirstToWake(w, rest);
      if w.threads[s].until < w.threads[t].until {
        t := s;
      }
    }
  }

  /** An event that brings some wait nearer to its release. */
  predicate Advances(event: Event) {
    !event.Call? && (event.Pass? ==> event.duration > 0.0)
  }

  /** A thread that can move now. */
  predicate Runnable(w: World, t: Thread)
    requires Placed(w)
  {
    t in w.threads &&
    match w.threads[t]
    case Blocked(_) => Mine(w, t).holder.None?
    case Sleeping(_, until) => until <= w.clock
    case _ => true
  }

  lemma RunnableMoves(w: World, t: Thread) returns (event: Event)
    requires Placed(w) && Runnable(w, t)
    ensures Next(w, event).Some? && Prompt(w, event) && Advances(event)
  {
    hide Classified, Classify, Interval, PolicyOf;
    match w.threads[t]
    case Blocked(_) => event := Lock(t);
    case Locked(_) => event := ReadClock(t);
    case Timed(_, _) => event := Sleep(t);
    case Sleeping(_, _) => event := Wake(t);
    case Awake(_) => event := Release(t);
  }

  /** If nobody can move, somebody sleeps. */
  lemma SomebodySleeps(w: World) returns (t: Thread)
    requires Invariant(w) && Placed(w) && w.threads != map[] && forall u :: !Runnable(w, u)
    ensures t in w.threads && w.threads[t].Sleeping?
  {
    hide Classified, Classify, Interval, PolicyOf, Invariant, PacerSound;
    Unfold(w);
    t :| t in w.threads;
    assert !Runnable(w, t);
    if w.threads[t].Blocked? {
      var name := PolicyOf(w.threads[t].path);
      assert HolderSound(w.threads, name, w.pacers[name]);
      var h := w.pacers[name].holder.value;
      assert StageSound(w.pacers[name], h, w.threads[h], w.clock);
      assert !Runnable(w, h);
      t := h;
    }
  }

  /** No prompt run gets stuck: as long as somebody waits, some step is possible that advances a wait. */
  lemma NeverStuck(w: World) returns (event: Event)
    requires Invariant(w) && w.threads != map[]
    ensures Placed(w) && Next(w, event).Some? && Prompt(w, event) && Advances(event)
  {
    hide Classified, Classify, Interval, PolicyOf, Invariant, PacerSound, HolderSound, StageSound, Mine;
    Unfold(w);
    if t :| Runnable(w, t) {
      event := RunnableMoves(w, t);
    } else {
      var t := SomebodySleeps(w);
      var sleepers := set u | u in w.threads && w.threads[u].Sleeping?;
      assert t in sleepers;
      var first := FirstToWake(w, sleepers);
      event := Pass(w.threads[first].until - w.clock);
      assert forall u :: u in w.threads ==> !Runnable(w, u);
      NobodyRunnable(w, event);
    }
  }

  lemma NobodyRunnable(w: World, event: Event)
    requires Placed(w) && event.Pass? && forall t :: !Runnable(w, t)
    requires forall t :: t in w.threads && w.threads[t].Sleeping? ==> w.clock + event.duration <= w.threads[t].until
    ensures Prompt(w, event)
  {
    hide Classified, Classify, PolicyOf;
    forall t | t in w.threads
      ensures w.threads[t].Sleeping? || (w.threads[t].Blocked? && Mine(w, t).holder.Some?)
    {
      assert !Runnable(w, t);
    }
  }
}
