/**
 The lock-protected fixed-interval pacers that all gateway clients and browsers of one process share, as a
 machine of atomic thread steps over a monotone clock, and as the objects the harness calls.
 */
module Pacing {
  import opened Wrappers
  import opened RatePolicies

  type Thread = nat

  /** One pacer: `_next_request_at`, the lock, and the clock readings at which its waits were released. */
  datatype Pacer = Pacer(next: Option<real>, holder: Option<Thread>, releases: seq<real>)

  /** Where a thread is inside `wait`; the path it waits for decides its pacer. */
  datatype Stage =
    | Blocked(path: string)                 // at the lock
    | Locked(path: string)                  // lock taken
    | Timed(path: string, now: real)        // `now` read
    | Sleeping(path: string, until: real)   // inside `sleep`, or past it when no delay was due
    | Awake(path: string)                   // about to read the release time

  datatype World = World(clock: real, pacers: map<PolicyName, Pacer>, threads: map<Thread, Stage>)

  datatype Event =
    | Pass(duration: real)
    | Call(thread: Thread, path: string)
    | Lock(thread: Thread)
    | ReadClock(thread: Thread)
    | Sleep(thread: Thread)
    | Wake(thread: Thread)
    | Release(thread: Thread)

  /** The pacers run at the rates of the policy table. */
  function Rate(name: PolicyName): (r: real)
    ensures 0.0 < r < Allowance(name)
  {
    PolicyNamed(name).requestsPerSecond
  }

  function Interval(name: PolicyName): (r: real)
    ensures r > 0.0
  {
    1.0 / Rate(name)
  }

  /** The paces of the policy table are four fifths of what the ingress allows. */
  lemma RatesOfAllowance(name: PolicyName)
    ensures Rate(name) == 0.8 * Allowance(name) && Interval(name) * Rate(name) == 1.0
    ensures Rate(name) == if name.LoginInitiation? then 0.8 else if name.LoginCompletion? then 1.6
                          else if name.SessionOperations? then 4.0 else 8.0
  {
  }

  /** The delay of `wait`: up to the reserved time, never negative. */
  function Delay(next: Option<real>, now: real): real {
    match next
    case Some(at) => (if at > now then at else now) - now
    case None => 0.0
  }

  predicate Ready(w: World) {
    forall name: PolicyName :: name in w.pacers
  }

  predicate Classified(path: string) {
    Classify(path).Some?
  }

  function PolicyOf(path: string): PolicyName
    requires Classified(path)
  {
    Classify(path).value.name
  }

  /** Every pacer exists and every waiting thread waits for a rate-limited path. */
  predicate Placed(w: World) {
    Ready(w) && forall t :: t in w.threads ==> Classified(w.threads[t].path)
  }

  /** The next world, or None when the event cannot happen now. */
  function Next(w: World, event: Event): Option<World> {
    if !Placed(w) then None else
    match event
    case Pass(d) => if d >= 0.0 then Some(w.(clock := w.clock + d)) else None
    case Call(t, path) =>
      if t in w.threads then None
      else if !Classified(path) then Some(w)
      else Some(w.(threads := w.threads[t := Blocked(path)]))
    case Lock(t) =>
      if t in w.threads && w.threads[t].Blocked? && w.pacers[PolicyOf(w.threads[t].path)].holder.None? then
        var name := PolicyOf(w.threads[t].path);
        Some(w.(threads := w.threads[t := Locked(w.threads[t].path)],
                pacers := w.pacers[name := w.pacers[name].(holder := Some(t))]))
      else None
    case ReadClock(t) =>
      if t in w.threads && w.threads[t].Locked?
      then Some(w.(threads := w.threads[t := Timed(w.threads[t].path, w.clock)])) else None
    case Sleep(t) =>
      if t in w.threads && w.threads[t].Timed? then
        var delay := Delay(w.pacers[PolicyOf(w.threads[t].path)].next, w.threads[t].now);
        Some(w.(threads := w.threads[t := Sleeping(w.threads[t].path, w.clock + delay)]))
      else None
    case Wake(t) =>
      if t in w.threads && w.threads[t].Sleeping? && w.clock >= w.threads[t].until
      then Some(w.(threads := w.threads[t := Awake(w.threads[t].path)])) else None
    case Release(t) =>
      if t in w.threads && w.threads[t].Awake? then
        var name := PolicyOf(w.threads[t].path);
        Some(w.(threads := w.threads - {t},
                pacers := w.pacers[name
                                     := Pacer(Some(w.clock + Interval(name)), None,
                                              w.pacers[name].releases + [w.clock])]))
      else None
  }

  // ---------------------------------------------------------------- the invariant

  predicate Spaced(releases: seq<real>, interval: real) {
    forall i :: 0 < i < |releases| ==> releases[i] >= releases[i - 1] + interval
  }

  /** Releases an interval apart, the next one reserved an interval after the last, and none in the future. */
  predicate InOrder(interval: real, next: Option<real>, releases: seq<real>, now: real) {
    && interval > 0.0 && Spaced(releases, interval)
    && (releases == [] ==> next == None)
    && (releases != [] ==>
         next == Some(releases[|releases| - 1] + interval) && releases[|releases| - 1] <= now)
  }

  predicate PacerSound(name: PolicyName, p: Pacer, clock: real) {
    InOrder(Interval(name), p.next, p.releases, clock)
  }

  predicate Due(p: Pacer, at: real) {
    p.next.Some? ==> at >= p.next.value
  }

  predicate Since(p: Pacer, now: real) {
    p.releases != [] ==> p.releases[|p.releases| - 1] <= now
  }

  /** What the thread that holds a lock knows about its pacer. */
  predicate StageSound(p: Pacer, t: Thread, stage: Stage, clock: real) {
    match stage
    case Blocked(_) => p.holder != Some(t)
    case Locked(_) => p.holder == Some(t)
    case Timed(_, now) => p.holder == Some(t) && now <= clock && Since(p, now)
    case Sleeping(_, until) => p.holder == Some(t) && Due(p, until)
    case Awake(_) => p.holder == Some(t) && Due(p, clock)
  }

  /** A held lock is held by a thread that waits for that pacer. */
  predicate HolderSound(threads: map<Thread, Stage>, name: PolicyName, p: Pacer) {
    p.holder.Some? ==>
      && p.holder.value in threads && Classified(threads[p.holder.value].path)
      && PolicyOf(threads[p.holder.value].path) == name
  }

  ghost predicate Invariant(w: World) {
    && Placed(w)
    && (forall name :: name in w.pacers ==> PacerSound(name, w.pacers[name], w.clock))
    && (forall name :: name in w.pacers ==> HolderSound(w.threads, name, w.pacers[name]))
    && (forall t :: t in w.threads ==> StageSound(w.pacers[PolicyOf(w.threads[t].path)], t, w.threads[t], w.clock))
  }

  function Moved(threads: map<Thread, Stage>, t: Thread, stage: Option<Stage>): map<Thread, Stage> {
    match stage case Some(s) => threads[t := s] case None => threads - {t}
  }

  lemma OtherStage(before: Pacer, after: Pacer, u: Thread, stage: Stage, clock: real)
    requires after.holder == Some(u) ==> before.holder == Some(u)
    requires before.holder == Some(u) ==> after == before
    ensures StageSound(before, u, stage, clock) ==> StageSound(after, u, stage, clock)
  {
  }

  lemma OtherHolder(threads: map<Thread, Stage>, t: Thread, stage: Option<Stage>, n: PolicyName, before: Pacer,
                    after: Pacer, name: PolicyName)
    requires HolderSound(threads, n, before) && (n != name ==> after == before)
    requires forall u :: n == name && u != t && after.holder == Some(u) ==> before.holder == Some(u)
    requires n == name && after.holder == Some(t) ==> stage.Some?
    requires t in threads ==> Classified(threads[t].path) && PolicyOf(threads[t].path) == name
    requires stage.Some? ==> Classified(stage.value.path) && PolicyOf(stage.value.path) == name
    ensures HolderSound(Moved(threads, t, stage), n, after)
  {
    hide Classified, PolicyOf;
  }

  /** One thread moving on its own pacer; the others only need that the lock is not taken from under them. */
  lemma MoveKeeps(w: World, t: Thread, stage: Option<Stage>, name: PolicyName, p: Pacer)
    requires Invariant(w)
    requires t in w.threads ==> PolicyOf(w.threads[t].path) == name
    requires stage.Some? ==> Classified(stage.value.path) && PolicyOf(stage.value.path) == name
                             && StageSound(p, t, stage.value, w.clock)
    requires PacerSound(name, p, w.clock)
    requires forall u :: u != t && p.holder == Some(u) ==> w.pacers[name].holder == Some(u)
    requires forall u :: u != t && w.pacers[name].holder == Some(u) ==> p == w.pacers[name]
    requires p.holder == Some(t) ==> stage.Some?
    ensures Invariant(w.(threads := Moved(w.threads, t, stage), pacers := w.pacers[name := p]))
  {
    hide Classified, PolicyOf, PacerSound, StageSound, HolderSound;
    var w' := w.(threads := Moved(w.threads, t, stage), pacers := w.pacers[name := p]);
    forall u | u in w'.threads ensures StageSound(w'.pacers[PolicyOf(w'.threads[u].path)], u, w'.threads[u], w'.clock) {
      if u != t {
        assert w'.threads[u] == w.threads[u];
        assert StageSound(w.pacers[PolicyOf(w.threads[u].path)], u, w.threads[u], w.clock);
        OtherStage(w.pacers[name], p, u, w.threads[u], w.clock);
      }
    }
    forall n | n in w'.pacers ensures HolderSound(w'.threads, n, w'.pacers[n]) {
      assert HolderSound(w.threads, n, w.pacers[n]);
      OtherHolder(w.threads, t, stage, n, w.pacers[n], w'.pacers[n], name);
    }
  }

  lemma PassKeeps(w: World, d: real)
    requires Invariant(w) && d >= 0.0
    ensures Invariant(w.(clock := w.clock + d))
  {
    hide Classified, Interval, PolicyOf, Spaced;
  }

  lemma NextKeeps(w: World, event: Event)
    requires Invariant(w) && Next(w, event).Some?
    ensures Invariant(Next(w, event).value)
  {
    hide Classified, Interval, PolicyOf, PacerSound, Invariant;
    Unfold(w);
    match event
    case Pass(d) => PassKeeps(w, d);
    case Call(t, path) =>
      if Classified(path) {
        assert HolderSound(w.threads, PolicyOf(path), w.pacers[PolicyOf(path)]);
        MoveKeeps(w, t, Some(Blocked(path)), PolicyOf(path), w.pacers[PolicyOf(path)]);
        assert w.pacers[PolicyOf(path) := w.pacers[PolicyOf(path)]] == w.pacers;
      }
    case Release(t) => ReleaseKeeps(w, t);
    case _ => StageKeeps(w, event);
  }

  lemma Unfold(w: World)
    requires Invariant(w)
    ensures Placed(w)
    ensures forall name :: name in w.pacers ==> PacerSound(name, w.pacers[name], w.clock)
    ensures forall name :: name in w.pacers ==> HolderSound(w.threads, name, w.pacers[name])
    ensures forall t :: t in w.threads ==> StageSound(w.pacers[PolicyOf(w.threads[t].path)], t, w.threads[t], w.clock)
  {
    hide PacerSound, StageSound;
  }

  lemma StageKeeps(w: World, event: Event)
    requires Invariant(w) && Next(w, event).Some? && (event.Lock? || event.ReadClock? || event.Sleep? || event.Wake?)
    ensures Invariant(Next(w, event).value)
  {
    hide Classified, Interval, PolicyOf, PacerSound, Invariant;
    Unfold(w);
    var t := event.thread;
    var w', path := Next(w, event).value, w.threads[t].path;
    var name := PolicyOf(path);
    var p := w.pacers[name];
    assert StageSound(p, t, w.threads[t], w.clock);
    var p' := if event.Lock? then p.(holder := Some(t)) else p;
    PacerFacts(name, p, w.clock, t);
    assert w'.pacers == w.pacers[name := p'];
    MoveKeeps(w, t, Some(w'.threads[t]), name, p');
    assert w'.threads == w.threads[t := w'.threads[t]];
  }

  lemma PacerFacts(name: PolicyName, p: Pacer, clock: real, t: Thread)
    requires PacerSound(name, p, clock)
    ensures PacerSound(name, p.(holder := Some(t)), clock) && Since(p, clock)
  {
  }

  lemma ReleaseKeeps(w: World, t: Thread)
    requires Invariant(w) && Next(w, Release(t)).Some?
    ensures Invariant(Next(w, Release(t)).value)
  {
    hide Classified, Interval, PolicyOf, PacerSound, Invariant;
    Unfold(w);
    var name := PolicyOf(w.threads[t].path);
    var p := w.pacers[name];
    assert StageSound(p, t, w.threads[t], w.clock);
    ReleasedPacerSound(name, p, w.clock);
    MoveKeeps(w, t, None, name, Pacer(Some(w.clock + Interval(name)), None, p.releases + [w.clock]));
  }

  lemma ReleasedPacerSound(name: PolicyName, p: Pacer, clock: real)
    requires PacerSound(name, p, clock) && Due(p, clock)
    ensures PacerSound(name, Pacer(Some(clock + Interval(name)), None, p.releases + [clock]), clock)
  {
    hide Interval;
  }

  function Run(w: World, events: seq<Event>): Option<World>
    decreases |events|
  {
    if events == [] then Some(w)
    else match Next(w, events[0])
      case None => None
      case Some(w') => Run(w', events[1..])
  }

  /** All pacers unused, no thread inside `wait`. */
  predicate Start(w: World) {
    Ready(w) && w.threads == map[] && forall name :: name in w.pacers ==> w.pacers[name] == Pacer(None, None, [])
  }

  lemma StartInvariant(w: World)
    requires Start(w)
    ensures Invariant(w)
  {
  }

  lemma {:induction false} RunKeeps(w: World, events: seq<Event>)
    requires Invariant(w) && Run(w, events).Some?
    ensures Invariant(Run(w, events).value)
    decreases |events|
  {
    hide Invariant, Next;
    if events != [] {
      NextKeeps(w, events[0]);
      RunKeeps(Next(w, events[0]).value, events[1..]);
    }
  }

  // ---------------------------------------------------------------- how far apart releases are

  /** The releases inside the closed window from `a` to `b`. */
  function Count(releases: seq<real>, a: real, b: real): nat {
    if releases == [] then 0
    else
      var n := |releases| - 1;
      Count(releases[..n], a, b) + if a <= releases[n] <= b then 1 else 0
  }

  /** `k` intervals */
  function Span(k: nat, interval: real): real {
    k as real * interval
  }

  lemma SpanStep(k: nat, interval: real)
    ensures Span(0, interval) == 0.0
    ensures Span(k + 1, interval) == Span(k, interval) + interval
  {
  }

  /** The releases in a window span one interval less than their number, up to its end and to the last release. */
  lemma {:induction false} CountSpread(releases: seq<real>, interval: real, a: real, b: real)
    requires Spaced(releases, interval) && interval > 0.0 && a <= b
    ensures Count(releases, a, b) > 0 ==>
              && Span(Count(releases, a, b) - 1, interval) <= b - a
              && Span(Count(releases, a, b) - 1, interval) <= releases[|releases| - 1] - a
    decreases |releases|
  {
    hide Span;
    if releases != [] {
      var n := |releases| - 1;
      var front := releases[..n];
      CountSpread(front, interval, a, b);
      var c := Count(front, a, b);
      SpanStep(if c > 0 then c - 1 else 0, interval);
      if c > 0 {
        assert front[n - 1] == releases[n - 1] && releases[n] >= releases[n - 1] + interval;
      }
    }
  }

  /** Any closed window of length `length` holds at most floor(length * rate) + 1 releases. */
  lemma WindowBound(releases: seq<real>, rate: real, a: real, length: real)
    requires rate > 0.0 && length >= 0.0 && Spaced(releases, 1.0 / rate)
    ensures Count(releases, a, a + length) <= (length * rate).Floor + 1
  {
    var c := Count(releases, a, a + length);
    CountSpread(releases, 1.0 / rate, a, a + length);
    if c > 0 {
      var k := (c - 1) as real;
      assert k * (1.0 / rate) <= length;
      ScaleUp(k, rate, length);
      assert ((c - 1) as real).Floor == c - 1;
      assert k <= length * rate;
    } else {
      assert length * rate >= 0.0;
    }
  }

  lemma ScaleUp(k: real, rate: real, length: real)
    requires rate > 0.0 && k * (1.0 / rate) <= length
    ensures k <= length * rate
  {
    var i := 1.0 / rate;
    assert i * rate == 1.0;
    assert (k * i) * rate <= length * rate;
    assert (k * i) * rate == k * (i * rate);
  }

  lemma {:induction false} SpacedApart(releases: seq<real>, interval: real, i: nat, k: nat)
    requires Spaced(releases, interval) && interval > 0.0 && i + k < |releases|
    ensures releases[i + k] >= releases[i] + k as real * interval
    decreases k
  {
    if k > 0 {
      SpacedApart(releases, interval, i, k - 1);
      assert releases[i + k] >= releases[i + k - 1] + interval;
      assert (k - 1) as real * interval + interval == k as real * interval;
    }
  }

  /**
   In every run, under every interleaving and any oversleeping, the releases of each pacer are spaced by its
   interval: the k-th later one is at least k intervals later.
   */
  lemma ReleasesApart(start: World, events: seq<Event>, name: PolicyName, i: nat, k: nat)
    requires Start(start)
    requires Run(start, events).Some?
    requires name in Run(start, events).value.pacers && i + k < |Run(start, events).value.pacers[name].releases|
    ensures var releases := Run(start, events).value.pacers[name].releases;
            releases[i + k] >= releases[i] + k as real * Interval(name)
  {
    hide Run, Next, Interval;
    StartInvariant(start);
    RunKeeps(start, events);
    var w := Run(start, events).value;
    Unfold(w);
    SpacedApart(w.pacers[name].releases, Interval(name), i, k);
  }

  lemma AllPacers(w: World)
    requires Placed(w)
    ensures forall name: PolicyName :: name in w.pacers
  {
  }

  lemma PacerSpaced(name: PolicyName, p: Pacer, clock: real)
    requires PacerSound(name, p, clock)
    ensures Spaced(p.releases, 1.0 / Rate(name))
  {
  }

  /** The same for a window: no pacer exceeds its rate by more than one request in any closed window. */
  lemma RunWindowBound(start: World, events: seq<Event>, name: PolicyName, a: real, length: real)
    requires Start(start) && Run(start, events).Some? && length >= 0.0
    ensures name in Run(start, events).value.pacers
    ensures Count(Run(start, events).value.pacers[name].releases, a, a + length) <= (length * Rate(name)).Floor + 1
  {
    hide Run, Next, Rate, Count, PacerSound, StageSound, HolderSound, Spaced, Placed;
    StartInvariant(start);
    RunKeeps(start, events);
    var w := Run(start, events).value;
    Unfold(w);
    AllPacers(w);
    PacerSpaced(name, w.pacers[name], w.clock);
    WindowBound(Run(start, events).value.pacers[name].releases, Rate(name), a, length);
  }

  // ---------------------------------------------------------------- the ingress bucket

  /** Tokens just before release `k`, for a bucket that starts full and refills up to its capacity. */
  function Tokens(releases: seq<real>, k: nat, refill: real, capacity: real): real
    requires k < |releases|
  {
    if k == 0 then capacity
    else
      var level := Tokens(releases, k - 1, refill, capacity) - 1.0 + refill * (releases[k] - releases[k - 1]);
      if level < capacity then level else capacity
  }

  lemma {:induction false} BucketStaysFull(releases: seq<real>, k: nat, rate: real, refill: real, capacity: real)
    requires k < |releases| && 0.0 < rate <= refill && capacity >= 1.0 && Spaced(releases, 1.0 / rate)
    ensures Tokens(releases, k, refill, capacity) == capacity
  {
    if k > 0 {
      BucketStaysFull(releases, k - 1, rate, refill, capacity);
      assert releases[k] >= releases[k - 1] + 1.0 / rate;
      RefillsOne(rate, refill, releases[k] - releases[k - 1]);
    }
  }

  lemma RefillsOne(rate: real, refill: real, gap: real)
    requires 0.0 < rate <= refill && gap >= 1.0 / rate
    ensures refill * gap >= 1.0
  {
    assert rate * (1.0 / rate) == 1.0;
    assert rate * gap >= rate * (1.0 / rate);
    assert refill * gap >= rate * gap;
  }

  /** At every release of every run the ingress bucket of that policy, started full, still has a token. */
  lemma AllowanceNeverExceeded(start: World, events: seq<Event>, name: PolicyName, k: nat, capacity: real)
    requires Start(start) && Run(start, events).Some? && capacity >= 1.0
    requires name in Run(start, events).value.pacers && k < |Run(start, events).value.pacers[name].releases|
    ensures Tokens(Run(start, events).value.pacers[name].releases, k, Allowance(name), capacity) >= 1.0
  {
    hide Run, Next, Tokens;
    StartInvariant(start);
    RunKeeps(start, events);
    Unfold(Run(start, events).value);
    BucketStaysFull(Run(start, events).value.pacers[name].releases, k, Rate(name), Allowance(name), capacity);
  }

  // ---------------------------------------------------------------- how long a wait sleeps

  /** No wait sleeps longer than one interval, and it sleeps only if the last release is less than one interval ago. */
  lemma SleepBound(w: World, t: Thread)
    requires Invariant(w) && t in w.threads && w.threads[t].Timed?
    ensures var name := PolicyOf(w.threads[t].path);
            var p := w.pacers[name];
            var delay := Delay(p.next, w.threads[t].now);
            && 0.0 <= delay <= Interval(name)
            && (delay > 0.0 <==> p.releases != [] && w.threads[t].now < p.releases[|p.releases| - 1] + Interval(name))
  {
    hide Classified, Classify;
    Unfold(w);
    var name := PolicyOf(w.threads[t].path);
    assert PacerSound(name, w.pacers[name], w.clock);
    assert StageSound(w.pacers[name], t, w.threads[t], w.clock);
  }

  // ---------------------------------------------------------------- pacers are independent

  /** A step changes a pacer only when the stepping thread waits for a path of that pacer's own policy. */
  lemma PacersIndependent(w: World, event: Event, name: PolicyName)
    requires Invariant(w) && Next(w, event).Some?
    ensures name in w.pacers && name in Next(w, event).value.pacers
    ensures Next(w, event).value.pacers[name] != w.pacers[name] ==>
              && (event.Lock? || event.Release?) && event.thread in w.threads
              && PolicyOf(w.threads[event.thread].path) == name
  {
    hide Classified, Classify, Interval;
    Unfold(w);
  }

  /** Nobody waits for the pacer. */
  predicate Unwanted(w: World, name: PolicyName) {
    forall t :: t in w.threads && Classified(w.threads[t].path) ==> PolicyOf(w.threads[t].path) != name
  }

  predicate CallsFor(event: Event, name: PolicyName) {
    event.Call? && Classified(event.path) && PolicyOf(event.path) == name
  }

  lemma UnwantedStep(w: World, event: Event, name: PolicyName)
    requires Invariant(w) && Unwanted(w, name) && Next(w, event).Some? && !CallsFor(event, name)
    ensures Invariant(Next(w, event).value) && Unwanted(Next(w, event).value, name)
    ensures name in w.pacers && name in Next(w, event).value.pacers
            && Next(w, event).value.pacers[name] == w.pacers[name]
  {
    hide Classify, Interval, PolicyOf, Invariant, PacerSound, HolderSound, StageSound;
    NextKeeps(w, event);
    Unfold(w);
    Unfold(Next(w, event).value);
    PacersIndependent(w, event, name);
  }

  /** In every run, waits for paths of other policies, or of none, leave a pacer exactly as it was. */
  lemma {:induction false} OtherWaitsUnseen(w: World, events: seq<Event>, name: PolicyName)
    requires Invariant(w) && Unwanted(w, name) && Run(w, events).Some?
    requires forall i :: 0 <= i < |events| ==> !CallsFor(events[i], name)
    ensures name in w.pacers && name in Run(w, events).value.pacers
    ensures Run(w, events).value.pacers[name] == w.pacers[name]
    decreases |events|
  {
    hide Invariant, Next, Unwanted, CallsFor, PacerSound, HolderSound, StageSound;
    Unfold(w);
    if events != [] {
      UnwantedStep(w, events[0], name);
      OtherWaitsUnseen(Next(w, events[0]).value, events[1..], name);
    }
  }

  // ---------------------------------------------------------------- the objects

  /** `sleeps` lists the durations slept so far; a real clock need not keep them. */
  class Clock {
    var now: real
    ghost var sleeps: seq<real>

    constructor ()
      ensures now == 0.0 && sleeps == []
    {
      now := 0.0;
      sleeps := [];
    }

    /** `time.monotonic()`: any later reading. */
    method Monotonic() returns (t: real)
      modifies this`now
      ensures old(now) <= now == t
    {
      var passed: real := *;
      now := if passed > 0.0 then now + passed else now;
      t := now;
    }

    /** `time.sleep(d)`: at least `d` passes. */
    method Sleep(d: real)
      requires d >= 0.0
      modifies this
      ensures now >= old(now) + d && sleeps == old(sleeps) + [d]
    {
      var late: real := *;
      now := if late > 0.0 then now + d + late else now + d;
      sleeps := sleeps + [d];
    }
  }

  lemma InOrderLater(interval: real, next: Option<real>, releases: seq<real>, now: real, later: real)
    requires InOrder(interval, next, releases, now) && now <= later
    ensures InOrder(interval, next, releases, later)
  {
  }

  class RequestPacer {
    const interval: real
    var nextRequestAt: Option<real>
    ghost var releases: seq<real>

    ghost predicate Valid(clock: Clock)
      reads this, clock
    {
      InOrder(interval, nextRequestAt, releases, clock.now)
    }

    constructor (requestsPerSecond: real, clock: Clock)
      requires requestsPerSecond > 0.0
      ensures Valid(clock) && releases == [] && interval == 1.0 / requestsPerSecond
    {
      interval := 1.0 / requestsPerSecond;
      nextRequestAt := None;
      releases := [];
    }

    /**
     The lock makes one `wait` atomic with respect to the others; time may pass at every reading. A wait that
     starts at `start` sleeps exactly until the reserved time, and not at all when that has passed.
     */
    method Wait(clock: Clock) returns (delay: real, ghost start: real)
      requires Valid(clock)
      modifies this, clock
      ensures Valid(clock) && |releases| == |old(releases)| + 1 && old(releases) == releases[..|old(releases)|]
      ensures old(clock.now) <= start && start + delay <= releases[|old(releases)|]
      ensures 0.0 <= delay <= interval
      ensures match old(nextRequestAt)
              case None => delay == 0.0
              case Some(at) => start >= at ==> delay == 0.0
      ensures match old(nextRequestAt)
              case None => true
              case Some(at) => start < at ==> start + delay == at
      ensures old(clock.now) <= clock.now
      ensures clock.sleeps == old(clock.sleeps) + if delay > 0.0 then [delay] else []
    {
      var now := clock.Monotonic();
      start := now;
      delay := Delay(nextRequestAt, now);
      if delay > 0.0 {
        clock.Sleep(delay);
      }
      var release := clock.Monotonic();
      nextRequestAt := Some(release + interval);
      releases := releases + [release];
    }
  }

  /** The wait went through this pacer: it has one release more. */
  twostate predicate Reserved(p: RequestPacer)
    reads p
  {
    |p.releases| == |old(p.releases)| + 1 && p.releases[..|old(p.releases)|] == old(p.releases)
  }

  twostate predicate Untouched(p: RequestPacer)
    reads p
  {
    p.releases == old(p.releases) && p.nextRequestAt == old(p.nextRequestAt)
  }

  class GatewayRequestPacing {
    const loginInitiation: RequestPacer
    const loginCompletion: RequestPacer
    const sessionOperations: RequestPacer
    const apiRequests: RequestPacer

    constructor (a: RequestPacer, b: RequestPacer, c: RequestPacer, d: RequestPacer)
      ensures loginInitiation == a && loginCompletion == b && sessionOperations == c && apiRequests == d
    {
      loginInitiation, loginCompletion, sessionOperations, apiRequests := a, b, c, d;
    }

    function PacerOf(name: PolicyName): RequestPacer {
      match name
      case LoginInitiation => loginInitiation
      case LoginCompletion => loginCompletion
      case SessionOperations => sessionOperations
      case ApiRequests => apiRequests
    }

    /** Reserves one slot of the pacer of the path's family; a path outside all families reserves nothing. */
    method Wait(path: string, clock: Clock)
      requires forall name :: PacerOf(name).Valid(clock)
      requires forall m, n :: m != n ==> PacerOf(m) != PacerOf(n)
      modifies loginInitiation, loginCompletion, sessionOperations, apiRequests, clock
      ensures forall name :: PacerOf(name).Valid(clock)
      ensures if Covers("/oauth2", path) then Reserved(loginInitiation) else Untouched(loginInitiation)
      ensures if Covers("/login/oauth2", path) then Reserved(loginCompletion) else Untouched(loginCompletion)
      ensures if Covers("/auth", path) || Covers("/logout", path) then Reserved(sessionOperations)
              else Untouched(sessionOperations)
      ensures if Covers("/api", path) then Reserved(apiRequests) else Untouched(apiRequests)
      ensures Classify(path).None? ==> unchanged(clock)
    {
      hide Covers, Classify, InOrder;
      ClassifiedByFamily(path);
      assert PacerOf(LoginInitiation) == loginInitiation && PacerOf(LoginCompletion) == loginCompletion;
      assert PacerOf(SessionOperations) == sessionOperations && PacerOf(ApiRequests) == apiRequests;
      var policy := Classify(path);
      if policy.Some? {
        var pacer := PacerOf(policy.value.name);
        var delay, start := pacer.Wait(clock);
        forall name | name != policy.value.name ensures PacerOf(name).Valid(clock) {
          var other := PacerOf(name);
          InOrderLater(other.interval, other.nextRequestAt, other.releases, old(clock.now), clock.now);
        }
      }
    }
  }

  /** The process-wide pacers, one per policy and each at its policy's rate. */
  method SharedPacing(clock: Clock) returns (pacing: GatewayRequestPacing)
    ensures fresh(pacing)
    ensures forall name :: fresh(pacing.PacerOf(name)) && pacing.PacerOf(name).Valid(clock)
                           && pacing.PacerOf(name).interval == Interval(name)
    ensures forall m, n :: m != n ==> pacing.PacerOf(m) != pacing.PacerOf(n)
  {
    var a := new RequestPacer(PolicyNamed(LoginInitiation).requestsPerSecond, clock);
    var b := new RequestPacer(PolicyNamed(LoginCompletion).requestsPerSecond, clock);
    var c := new RequestPacer(PolicyNamed(SessionOperations).requestsPerSecond, clock);
    var d := new RequestPacer(PolicyNamed(ApiRequests).requestsPerSecond, clock);
    pacing := new GatewayRequestPacing(a, b, c, d);
  }
}
