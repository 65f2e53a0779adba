/** What the runs of the barrier look like from outside: every trace is legal for a POSIX mutex and a
    POSIX semaphore, and every thread does what `synchronize` says, in that order. */
module BarrierTraces {
  import opened Options
  import opened Barrier

  // ----- the two synchronization objects -----

  datatype Objects = Objects(lockAlive: bool, holder: Option<nat>, semaphoreAlive: bool, semaphore: nat)

  const FRESH := Objects(true, None, true, 0)

  /** A mutex has one holder, which alone may unlock it; a wait needs a positive semaphore; an object is
      not used once destroyed, and a mutex not destroyed while held. */
  predicate Allowed(o: Objects, e: Event) {
    match e
    case Ready(_) => true
    case Go(_) => true
    case Locked(_) => o.lockAlive && o.holder == None
    case Unlocked(t) => o.lockAlive && o.holder == Some(t)
    case Posted(_) => o.semaphoreAlive
    case Waited(_) => o.semaphoreAlive && o.semaphore > 0
    case LockDestroyed => o.lockAlive && o.holder == None
    case SemaphoreDestroyed => o.semaphoreAlive
  }

  function After(o: Objects, e: Event): Objects
    requires Allowed(o, e)
  {
    match e
    case Ready(_) => o
    case Go(_) => o
    case Locked(t) => o.(holder := Some(t))
    case Unlocked(_) => o.(holder := None)
    case Posted(_) => o.(semaphore := o.semaphore + 1)
    case Waited(_) => o.(semaphore := o.semaphore - 1)
    case LockDestroyed => o.(lockAlive := false)
    case SemaphoreDestroyed => o.(semaphoreAlive := false)
  }

  /** The objects after a trace, or None if it does something they do not allow. */
  function Replay(trace: seq<Event>): Option<Objects> {
    if trace == [] then Some(FRESH)
    else
      match Replay(trace[..|trace| - 1])
      case None => None
      case Some(o) => if Allowed(o, trace[|trace| - 1]) then Some(After(o, trace[|trace| - 1])) else None
  }

  lemma ReplaySnoc(trace: seq<Event>, e: Event)
    ensures Replay(trace + [e])
            == match Replay(trace)
               case None => None
               case Some(o) => if Allowed(o, e) then Some(After(o, e)) else None
  {
    assert (trace + [e])[..|trace|] == trace;
  }

  function ObjectsOf(s: State): Objects {
    Objects(s.LockExists(), s.holder, s.SemaphoreExists(), s.semaphore)
  }

  /** The event of a step, if it has one, does to the objects what the step does to the state. */
  lemma StepOnObjects(s: State, a: Actor)
    requires Inv(s) && Step(s, a).Some?
    ensures var s' := Step(s, a).value;
            if s'.trace == s.trace then ObjectsOf(s') == ObjectsOf(s)
            else
              && |s'.trace| == |s.trace| + 1 && s'.trace == s.trace + [s'.trace[|s.trace|]]
              && var e := s'.trace[|s.trace|];
                 Allowed(ObjectsOf(s), e) && ObjectsOf(s') == After(ObjectsOf(s), e)
  {
    match a
    case Main => if !s.main.Creating? && !s.main.Joining? { FinishedState(s); }
    case Thread(t) => ThreadOnObjects(s, t);
  }

  lemma ThreadOnObjects(s: State, t: nat)
    requires MainInv(s) && LockInv(s) && t < s.N() && ThreadStep(s, t).Some?
    ensures var s' := ThreadStep(s, t).value;
            if s'.trace == s.trace then ObjectsOf(s') == ObjectsOf(s)
            else
              && |s'.trace| == |s.trace| + 1 && s'.trace == s.trace + [s'.trace[|s.trace|]]
              && var e := s'.trace[|s.trace|];
                 Allowed(ObjectsOf(s), e) && ObjectsOf(s') == After(ObjectsOf(s), e)
  {
    assert !s.threads[t].Done?;
    assert s.LockExists() && s.SemaphoreExists();
    assert s.threads[t].AtUnlock? ==> Critical(s.threads[t]) && s.holder == Some(t);
  }

  lemma {:induction false} RunOnObjects(n: nat, schedule: seq<Actor>)
    requires Run(Initial(n), schedule).Some?
    ensures var s := Run(Initial(n), schedule).value; Replay(s.trace) == Some(ObjectsOf(s))
  {
    if schedule != [] {
      var front, a := schedule[..|schedule| - 1], schedule[|schedule| - 1];
      RunOnObjects(n, front);
      RunInv(n, front);
      var s := Run(Initial(n), front).value;
      StepOnObjects(s, a);
      var s' := Step(s, a).value;
      if s'.trace != s.trace {
        ReplaySnoc(s.trace, s'.trace[|s.trace|]);
      }
    }
  }

  /** For every number of threads and every interleaving the trace is legal: mutual exclusion holds, no
      wait passes an empty semaphore, and nothing is used after its destruction. */
  lemma EveryTraceLegal(n: nat, schedule: seq<Actor>)
    requires Run(Initial(n), schedule).Some?
    ensures Replay(Run(Initial(n), schedule).value.trace).Some?
  {
    RunOnObjects(n, schedule);
  }

  // ----- what each thread does -----

  predicate IsBy(e: Event, t: nat) {
    !e.LockDestroyed? && !e.SemaphoreDestroyed? && e.thread == t
  }

  /** The events of thread t. */
  function DoneBy(trace: seq<Event>, t: nat): seq<Event> {
    if trace == [] then []
    else
      DoneBy(trace[..|trace| - 1], t) + (if IsBy(trace[|trace| - 1], t) then [trace[|trace| - 1]] else [])
  }

  lemma DoneBySnoc(trace: seq<Event>, e: Event, t: nat)
    ensures DoneBy(trace + [e], t) == DoneBy(trace, t) + (if IsBy(e, t) then [e] else [])
  {
    assert (trace + [e])[..|trace|] == trace;
  }

  function Posts(t: nat, k: nat): seq<Event> {
    seq(k, _ => Posted(t))
  }

  /** `synchronize`: the last thread to count itself posts once per thread, the others do not post. */
  function Program(t: nat, k: nat): seq<Event> {
    [Ready(t), Locked(t)] + Posts(t, k) + [Unlocked(t), Waited(t), Go(t)]
  }

  /** How far a thread at this place has come. */
  function Progress(pc: Pc, k: nat): nat {
    match pc
    case NotStarted => 0
    case AtReady => 0
    case AtLock => 1
    case AtLoad => 2
    case AtStore(_) => 2
    case AtTest => 2
    case AtPost(i) => 2 + i
    case AtUnlock => 2 + k
    case AtWait => 3 + k
    case AtGo => 4 + k
    case Done => 5 + k
  }

  /** How often thread t posts in all. */
  function PostsOf(s: State, t: nat): nat {
    if t in s.posters || (t < s.N() && s.threads[t].AtPost?) then s.N() else 0
  }

  ghost predicate FollowsProgram(s: State, t: nat)
    requires t < s.N()
  {
    var k := PostsOf(s, t);
    && Progress(s.threads[t], k) <= 5 + k
    && DoneBy(s.trace, t) == Program(t, k)[..Progress(s.threads[t], k)]
  }

  function EventAt(t: nat, k: nat, i: nat): Event {
    if i == 0 then Ready(t) else if i == 1 then Locked(t) else if i < 2 + k then Posted(t)
    else if i == 2 + k then Unlocked(t) else if i == 3 + k then Waited(t) else Go(t)
  }

  lemma NextEvent(t: nat, k: nat, i: nat)
    requires i < 5 + k
    ensures Program(t, k)[i] == EventAt(t, k, i)
    ensures Program(t, k)[..i] + [Program(t, k)[i]] == Program(t, k)[..i + 1]
  {
  }

  /** A step of another thread is no business of t. */
  lemma OtherFollows(s: State, a: Actor, t: nat)
    requires Inv(s) && Step(s, a).Some? && t < s.N() && a != Thread(t) && FollowsProgram(s, t)
    ensures FollowsProgram(Step(s, a).value, t)
  {
    var s' := Step(s, a).value;
    OtherPosts(s, a, t);
    OtherEvent(s, a, t);
    if s'.trace != s.trace {
      DoneBySnoc(s.trace, s'.trace[|s.trace|], t);
    }
  }

  lemma OtherPosts(s: State, a: Actor, t: nat)
    requires Inv(s) && Step(s, a).Some? && t < s.N() && a != Thread(t)
    ensures PostsOf(Step(s, a).value, t) == PostsOf(s, t)
    ensures Progress(Step(s, a).value.threads[t], PostsOf(s, t)) == Progress(s.threads[t], PostsOf(s, t))
  {
    OtherPlace(s, a, t);
  }

  lemma OtherPlace(s: State, a: Actor, t: nat)
    requires MainInv(s) && Step(s, a).Some? && t < s.N() && a != Thread(t)
    ensures var s' := Step(s, a).value;
            && (t in s'.posters <==> t in s.posters)
            && (s'.threads[t] == s.threads[t] || (s.threads[t] == NotStarted && s'.threads[t] == AtReady))
  {
    match a
    case Main =>
    case Thread(u) => assert u != t;
  }

  lemma OtherEvent(s: State, a: Actor, t: nat)
    requires Inv(s) && Step(s, a).Some? && t < s.N() && a != Thread(t)
    ensures var s' := Step(s, a).value;
            s'.trace == s.trace ||
            (|s'.trace| == |s.trace| + 1 && s'.trace == s.trace + [s'.trace[|s.trace|]]
             && !IsBy(s'.trace[|s.trace|], t))
  {
  }

  /** Where thread t is about to post or to unlock, its number of posts is decided. */
  lemma PostsDecided(s: State, t: nat)
    requires Inv(s) && t < s.N()
    ensures s.threads[t].AtTest? || Progress(s.threads[t], 0) < 2 ==> t !in s.posters
    ensures s.threads[t].AtPost? ==> s.threads[t].i <= s.N() && (s.threads[t].i == s.N() ==> t in s.posters)
  {
    if !Tested(s.threads[t]) {
      NotAllTested(s.threads, t);
    }
  }

  /** A step of thread t: its next event, if it has one, is the next of its program. */
  lemma OwnStep(s: State, t: nat)
    requires Inv(s) && t < s.N() && ThreadStep(s, t).Some?
    ensures var s' := ThreadStep(s, t).value;
            var k, i := PostsOf(s, t), Progress(s.threads[t], PostsOf(s, t));
            var i' := Progress(s'.threads[t], PostsOf(s', t));
            if s'.trace == s.trace then
              i' == i && (PostsOf(s', t) == k || i <= 2)
            else
              && PostsOf(s', t) == k && i' == i + 1 <= 5 + k
              && s'.trace == s.trace + [EventAt(t, k, i)]
  {
    PostsDecided(s, t);
  }

  lemma OwnFollows(s: State, t: nat)
    requires Inv(s) && t < s.N() && ThreadStep(s, t).Some? && FollowsProgram(s, t)
    ensures FollowsProgram(ThreadStep(s, t).value, t)
  {
    OwnStep(s, t);
    FollowsOn(s, ThreadStep(s, t).value, t, PostsOf(s, t), Progress(s.threads[t], PostsOf(s, t)));
  }

  lemma FollowsOn(s: State, s': State, t: nat, k: nat, i: nat)
    requires t < s.N() == s'.N() && k == PostsOf(s, t) && i == Progress(s.threads[t], k) && FollowsProgram(s, t)
    requires var k', i' := PostsOf(s', t), Progress(s'.threads[t], PostsOf(s', t));
             if s'.trace == s.trace then i' == i && (k' == k || i <= 2)
             else k' == k && i' == i + 1 <= 5 + k && s'.trace == s.trace + [EventAt(t, k, i)]
    ensures FollowsProgram(s', t)
  {
    if s'.trace == s.trace {
      assert i <= 2 ==> Program(t, k)[..i] == Program(t, PostsOf(s', t))[..i];
    } else {
      DoneBySnoc(s.trace, EventAt(t, k, i), t);
      NextEvent(t, k, i);
    }
  }

  lemma {:induction false} RunFollowsProgram(n: nat, schedule: seq<Actor>, t: nat)
    requires Run(Initial(n), schedule).Some? && t < n
    ensures var s := Run(Initial(n), schedule).value; Inv(s) && s.N() == n && FollowsProgram(s, t)
  {
    RunInv(n, schedule);
    if schedule != [] {
      var front, a := schedule[..|schedule| - 1], schedule[|schedule| - 1];
      RunFollowsProgram(n, front, t);
      var s := Run(Initial(n), front).value;
      if a == Thread(t) {
        OwnFollows(s, t);
      } else {
        OtherFollows(s, a, t);
      }
    }
  }

  /** At every moment of every run, what thread t has done is a beginning of its program, with n posts or
      none. */
  lemma ThreadsFollowProgram(n: nat, schedule: seq<Actor>, t: nat)
    requires Run(Initial(n), schedule).Some? && t < n
    ensures var trace := Run(Initial(n), schedule).value.trace;
            DoneBy(trace, t) <= Program(t, n) || DoneBy(trace, t) <= Program(t, 0)
  {
    RunFollowsProgram(n, schedule, t);
  }

  /** When everything is done every thread has done its whole program, and exactly one has posted. */
  lemma CompleteProgram(n: nat, schedule: seq<Actor>) returns (poster: nat)
    requires RunCompletes(n, schedule) && n > 0
    ensures poster < n
    ensures forall t: nat :: t < n ==>
              DoneBy(Run(Initial(n), schedule).value.trace, t) == Program(t, if t == poster then n else 0)
  {
    RunInv(n, schedule);
    var s := Run(Initial(n), schedule).value;
    poster :| poster < s.N() && s.posters == {poster};
    forall t: nat | t < n ensures DoneBy(s.trace, t) == Program(t, if t == poster then n else 0) {
      RunFollowsProgram(n, schedule, t);
    }
  }
}
