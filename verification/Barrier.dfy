/** The ready/go barrier: N threads, a creating and joining main thread, one mutex, one counting
    semaphore and one shared counter, as a state machine whose atomic steps interleave freely.
    Mutex and semaphore behave as in POSIX.1-2017 (System Interfaces, section 2.9, and the pages of
    pthread_mutex_lock, sem_post and sem_wait); waits are not interrupted by signals. */
module Barrier {
  import opened Options

  /** Where a thread is in `synchronize`. Reading and writing the shared counter are two steps, and
      every semaphore post is a step of its own. */
  datatype Pc =
    | NotStarted
    | AtReady
    | AtLock
    | AtLoad
    | AtStore(seen: nat)
    | AtTest
    | AtPost(i: nat)
    | AtUnlock
    | AtWait
    | AtGo
    | Done

  /** Where the main thread is in `start_threads`. */
  datatype MainPc = Creating(i: nat) | Joining(i: nat) | DestroyingLock | DestroyingSemaphore | Finished

  /** What a thread does that others can see, and the two destructions by the main thread. */
  datatype Event =
    | Ready(thread: nat)
    | Locked(thread: nat)
    | Posted(thread: nat)
    | Unlocked(thread: nat)
    | Waited(thread: nat)
    | Go(thread: nat)
    | LockDestroyed
    | SemaphoreDestroyed

  datatype State = State(
    main: MainPc,
    threads: seq<Pc>,
    holder: Option<nat>,
    readyThreads: nat,
    semaphore: nat,
    posts: nat,
    posters: set<nat>,
    trace: seq<Event>)
  {
    function N(): nat { |threads| }

    predicate LockExists() { main.Creating? || main.Joining? || main.DestroyingLock? }

    predicate SemaphoreExists() { !main.Finished? }

    function At(t: nat, pc: Pc): State
      requires t < |threads|
    {
      this.(threads := threads[t := pc])
    }
  }

  function Initial(n: nat): (s: State)
    ensures |s.threads| == n
  {
    State(Creating(0), seq(n, _ => NotStarted), None, 0, 0, 0, {}, [])
  }

  /** One step of thread t, or None while it is blocked, finished or not created. */
  function ThreadStep(s: State, t: nat): (r: Option<State>)
    requires t < |s.threads|
    ensures r.Some? ==> r.value.N() == s.N()
  {
    match s.threads[t]
    case NotStarted => None
    case AtReady => Some(s.At(t, AtLock).(trace := s.trace + [Ready(t)]))
    case AtLock =>
      if s.holder == None then Some(s.At(t, AtLoad).(holder := Some(t), trace := s.trace + [Locked(t)])) else None
    case AtLoad => Some(s.At(t, AtStore(s.readyThreads)))
    case AtStore(seen) => Some(s.At(t, AtTest).(readyThreads := seen + 1))
    case AtTest => Some(s.At(t, if s.readyThreads == s.N() then AtPost(0) else AtUnlock))
    case AtPost(i) =>
      if i < s.N() then
        Some(s.At(t, AtPost(i + 1)).(semaphore := s.semaphore + 1, posts := s.posts + 1,
                                     posters := s.posters + {t}, trace := s.trace + [Posted(t)]))
      else Some(s.At(t, AtUnlock))
    case AtUnlock => Some(s.At(t, AtWait).(holder := None, trace := s.trace + [Unlocked(t)]))
    case AtWait =>
      if s.semaphore > 0 then
        Some(s.At(t, AtGo).(semaphore := s.semaphore - 1, trace := s.trace + [Waited(t)]))
      else None
    case AtGo => Some(s.At(t, Done).(trace := s.trace + [Go(t)]))
    case Done => None
  }

  function MainStep(s: State): (r: Option<State>)
    ensures r.Some? ==> r.value.N() == s.N()
  {
    match s.main
    case Creating(i) =>
      if i < s.N() then Some(s.At(i, AtReady).(main := Creating(i + 1))) else Some(s.(main := Joining(0)))
    case Joining(i) =>
      if i >= s.N() then Some(s.(main := DestroyingLock))
      else if s.threads[i] == Done then Some(s.(main := Joining(i + 1)))
      else None
    case DestroyingLock => Some(s.(main := DestroyingSemaphore, trace := s.trace + [LockDestroyed]))
    case DestroyingSemaphore => Some(s.(main := Finished, trace := s.trace + [SemaphoreDestroyed]))
    case Finished => None
  }

  datatype Actor = Main | Thread(t: nat)

  function Step(s: State, a: Actor): (r: Option<State>)
    ensures r.Some? ==> r.value.N() == s.N()
  {
    match a
    case Main => MainStep(s)
    case Thread(t) => if t < s.N() then ThreadStep(s, t) else None
  }

  /** The state after a schedule, or None if it asks for a step that is not enabled. */
  function Run(s: State, schedule: seq<Actor>): Option<State> {
    if schedule == [] then Some(s)
    else
      match Run(s, schedule[..|schedule| - 1])
      case None => None
      case Some(m) => Step(m, schedule[|schedule| - 1])
  }

  // ----- counting threads -----

  function Count(p: Pc -> bool, threads: seq<Pc>): (c: nat)
    ensures c <= |threads|
  {
    if threads == [] then 0
    else Count(p, threads[..|threads| - 1]) + (if p(threads[|threads| - 1]) then 1 else 0)
  }

  lemma {:induction false} CountUpdate(p: Pc -> bool, threads: seq<Pc>, t: nat, pc: Pc)
    requires t < |threads|
    ensures Count(p, threads[t := pc])
            == Count(p, threads) - (if p(threads[t]) then 1 else 0) + (if p(pc) then 1 else 0)
  {
    var n := |threads| - 1;
    if t == n {
      assert threads[t := pc][..n] == threads[..n];
    } else {
      CountUpdate(p, threads[..n], t, pc);
      assert threads[t := pc][..n] == threads[..n][t := pc];
    }
  }

  lemma {:induction false} CountAll(p: Pc -> bool, threads: seq<Pc>)
    ensures Count(p, threads) == |threads| <==> forall t :: 0 <= t < |threads| ==> p(threads[t])
    ensures Count(p, threads) == 0 <==> forall t :: 0 <= t < |threads| ==> !p(threads[t])
  {
    if threads != [] {
      var n := |threads| - 1;
      CountAll(p, threads[..n]);
      assert forall t :: 0 <= t < n ==> threads[..n][t] == threads[t];
    }
  }

  /** Holding the mutex. */
  predicate Critical(pc: Pc) {
    pc.AtLoad? || pc.AtStore? || pc.AtTest? || pc.AtPost? || pc.AtUnlock?
  }

  /** Counted in `ready_threads`. */
  predicate Counted(pc: Pc) {
    pc.AtTest? || Tested(pc)
  }

  predicate Tested(pc: Pc) {
    pc.AtPost? || pc.AtUnlock? || pc.AtWait? || Woken(pc)
  }

  /** Past the semaphore. */
  predicate Woken(pc: Pc) {
    pc.AtGo? || pc.Done?
  }

  predicate Announced(pc: Pc) {
    !pc.NotStarted? && !pc.AtReady?
  }

  // ----- the invariant -----

  ghost predicate MainInv(s: State) {
    match s.main
    case Creating(i) =>
      i <= s.N() && forall t :: 0 <= t < s.N() ==> (s.threads[t].NotStarted? <==> t >= i)
    case Joining(i) =>
      && i <= s.N()
      && (forall t :: 0 <= t < i ==> s.threads[t].Done?)
      && forall t :: 0 <= t < s.N() ==> !s.threads[t].NotStarted?
    case _ => forall t :: 0 <= t < s.N() ==> s.threads[t].Done?
  }

  /** Mutual exclusion, and a thread about to store has seen the current count. */
  ghost predicate LockInv(s: State) {
    && (s.holder.Some? ==> s.holder.value < s.N())
    && (forall t :: 0 <= t < s.N() ==> (Critical(s.threads[t]) <==> s.holder == Some(t)))
    && forall t :: 0 <= t < s.N() && s.threads[t].AtStore? ==> s.threads[t].seen == s.readyThreads
  }

  ghost predicate CountInv(s: State) {
    && s.readyThreads == Count(Counted, s.threads)
    && s.semaphore + Count(Woken, s.threads) == s.posts
  }

  ghost predicate NonePosting(s: State) {
    forall t :: 0 <= t < s.N() ==> !s.threads[t].AtPost?
  }

  /** Nobody posts before every thread has tested the count; then one thread posts N times. */
  ghost predicate PostInv(s: State) {
    && s.posts <= s.N()
    && (Count(Tested, s.threads) < s.N() ==> s.posts == 0 && s.posters == {} && NonePosting(s))
    && (forall t :: 0 <= t < s.N() && s.threads[t].AtPost? ==>
          s.threads[t].i == s.posts && s.posters == if s.posts == 0 then {} else {t})
    && (Count(Tested, s.threads) == s.N() && NonePosting(s) ==> s.posts == s.N() && OnePoster(s))
  }

  ghost predicate OnePoster(s: State) {
    if s.N() == 0 then s.posters == {} else exists p: nat :: p < s.N() && s.posters == {p}
  }

  ghost predicate TraceInv(s: State) {
    && (forall t :: 0 <= t < s.N() ==>
          multiset(s.trace)[Ready(t)] == if Announced(s.threads[t]) then 1 else 0)
    && (forall t :: 0 <= t < s.N() ==>
          multiset(s.trace)[Go(t)] == if s.threads[t].Done? then 1 else 0)
    && multiset(s.trace)[LockDestroyed] == (if s.LockExists() then 0 else 1)
    && multiset(s.trace)[SemaphoreDestroyed] == (if s.SemaphoreExists() then 0 else 1)
    && GoAfterAllReady(s.N(), s.trace)
  }

  /** The barrier property: whenever a thread goes, all n threads were ready before. */
  ghost predicate GoAfterAllReady(n: nat, trace: seq<Event>) {
    forall j, t :: 0 <= j < |trace| && trace[j].Go? && 0 <= t < n ==> Ready(t) in trace[..j]
  }

  ghost predicate Inv(s: State) {
    MainInv(s) && LockInv(s) && CountInv(s) && PostInv(s) && TraceInv(s)
  }

  // ----- preservation -----

  lemma InitialInv(n: nat)
    ensures Inv(Initial(n))
  {
    var s := Initial(n);
    CountAll(Counted, s.threads);
    CountAll(Woken, s.threads);
    CountAll(Tested, s.threads);
  }

  lemma MainKeepsMain(s: State)
    requires MainInv(s) && MainStep(s).Some?
    ensures MainInv(MainStep(s).value)
  {
  }

  lemma MainKeepsLock(s: State)
    requires MainInv(s) && LockInv(s) && MainStep(s).Some?
    ensures LockInv(MainStep(s).value)
  {
  }

  lemma MainKeepsCount(s: State)
    requires MainInv(s) && CountInv(s) && MainStep(s).Some?
    ensures CountInv(MainStep(s).value)
  {
    if s.main.Creating? && s.main.i < s.N() {
      CountUpdate(Counted, s.threads, s.main.i, AtReady);
      CountUpdate(Woken, s.threads, s.main.i, AtReady);
    }
  }

  lemma MainKeepsPost(s: State)
    requires MainInv(s) && PostInv(s) && MainStep(s).Some?
    ensures PostInv(MainStep(s).value)
  {
    if s.main.Creating? && s.main.i < s.N() {
      CountUpdate(Tested, s.threads, s.main.i, AtReady);
      NotAllTested(s.threads, s.main.i);
      NotAllTested(s.threads[s.main.i := AtReady], s.main.i);
    }
  }

  lemma NotAllTested(threads: seq<Pc>, t: nat)
    requires t < |threads| && !Tested(threads[t])
    ensures Count(Tested, threads) < |threads|
  {
    CountAll(Tested, threads);
  }

  lemma MainKeepsTrace(s: State)
    requires MainInv(s) && TraceInv(s) && MainStep(s).Some?
    ensures TraceInv(MainStep(s).value)
  {
    var s' := MainStep(s).value;
    if s'.trace != s.trace {
      var e := s'.trace[|s.trace|];
      GoStaysLate(s.N(), s.trace, e);
    }
  }

  /** An event other than go keeps the barrier property. */
  lemma GoStaysLate(n: nat, trace: seq<Event>, e: Event)
    requires GoAfterAllReady(n, trace)
    requires e.Go? ==> forall t :: 0 <= t < n ==> Ready(t) in trace
    ensures GoAfterAllReady(n, trace + [e])
    ensures multiset(trace + [e]) == multiset(trace) + multiset{e}
  {
    var more := trace + [e];
    forall j, t | 0 <= j < |more| && more[j].Go? && 0 <= t < n ensures Ready(t) in more[..j] {
      assert more[..j] == trace[..j];
    }
  }

  lemma ThreadKeepsMain(s: State, t: nat)
    requires MainInv(s) && t < s.N() && ThreadStep(s, t).Some?
    ensures MainInv(ThreadStep(s, t).value)
  {
  }

  lemma ThreadKeepsLock(s: State, t: nat)
    requires LockInv(s) && t < s.N() && ThreadStep(s, t).Some?
    ensures LockInv(ThreadStep(s, t).value)
  {
  }

  lemma ThreadKeepsCount(s: State, t: nat)
    requires LockInv(s) && CountInv(s) && t < s.N() && ThreadStep(s, t).Some?
    ensures CountInv(ThreadStep(s, t).value)
  {
    var pc := ThreadStep(s, t).value.threads[t];
    CountUpdate(Counted, s.threads, t, pc);
    CountUpdate(Woken, s.threads, t, pc);
  }

  lemma ThreadKeepsPost(s: State, t: nat)
    requires LockInv(s) && CountInv(s) && PostInv(s) && t < s.N() && ThreadStep(s, t).Some?
    ensures PostInv(ThreadStep(s, t).value)
  {
    match s.threads[t]
    case AtTest => TestKeepsPost(s, t);
    case AtPost(i) => PostKeepsPost(s, t, i);
    case _ => OtherKeepsPost(s, t);
  }

  lemma TestKeepsPost(s: State, t: nat)
    requires LockInv(s) && CountInv(s) && PostInv(s) && t < s.N() && s.threads[t].AtTest?
    ensures PostInv(ThreadStep(s, t).value)
  {
    LastTester(s, t);
    NotAllTested(s.threads, t);
    var pc := if s.readyThreads == s.N() then AtPost(0) else AtUnlock;
    CountUpdate(Tested, s.threads, t, pc);
    assert ThreadStep(s, t).value.threads[t] == pc;
  }

  lemma PostKeepsPost(s: State, t: nat, i: nat)
    requires LockInv(s) && PostInv(s) && t < s.N() && s.threads[t] == AtPost(i)
    ensures PostInv(ThreadStep(s, t).value)
  {
    CountUpdate(Tested, s.threads, t, if i < s.N() then AtPost(i + 1) else AtUnlock);
    var s' := ThreadStep(s, t).value;
    OnlyPoster(s, t);
    if i < s.N() {
      assert s'.threads[t].AtPost?;
    } else {
      assert s.posts == s.N() && s.posters == {t};
      assert OnePoster(s');
    }
  }

  /** Two threads cannot both be posting. */
  lemma OnlyPoster(s: State, t: nat)
    requires LockInv(s) && t < s.N() && s.threads[t].AtPost?
    ensures forall u :: 0 <= u < s.N() && u != t ==> !s.threads[u].AtPost?
  {
    assert Critical(s.threads[t]);
    assert forall u :: 0 <= u < s.N() && s.threads[u].AtPost? ==> Critical(s.threads[u]);
  }

  lemma OtherKeepsPost(s: State, t: nat)
    requires PostInv(s) && t < s.N() && ThreadStep(s, t).Some?
    requires !s.threads[t].AtTest? && !s.threads[t].AtPost?
    ensures PostInv(ThreadStep(s, t).value)
  {
    var s' := ThreadStep(s, t).value;
    OtherStep(s, t);
    CountUpdate(Tested, s.threads, t, s'.threads[t]);
    PostSame(s, t, s');
  }

  lemma OtherStep(s: State, t: nat)
    requires t < s.N() && ThreadStep(s, t).Some?
    requires !s.threads[t].AtTest? && !s.threads[t].AtPost?
    ensures var s' := ThreadStep(s, t).value;
            && s'.N() == s.N() && s'.threads == s.threads[t := s'.threads[t]]
            && s'.posts == s.posts && s'.posters == s.posters
            && !s'.threads[t].AtPost? && Tested(s'.threads[t]) == Tested(s.threads[t])
  {
  }

  lemma PostSame(s: State, t: nat, s': State)
    requires PostInv(s) && t < s.N() == s'.N() && s'.threads == s.threads[t := s'.threads[t]]
    requires s'.posts == s.posts && s'.posters == s.posters
    requires !s.threads[t].AtPost? && !s'.threads[t].AtPost?
    requires Count(Tested, s'.threads) == Count(Tested, s.threads)
    ensures PostInv(s')
  {
    assert forall u :: 0 <= u < s.N() ==> (s.threads[u].AtPost? <==> s'.threads[u].AtPost?);
    assert NonePosting(s) <==> NonePosting(s');
  }

  /** The thread that finds the count complete is the only one that has not tested it yet. */
  lemma LastTester(s: State, t: nat)
    requires LockInv(s) && CountInv(s) && t < s.N() && s.threads[t].AtTest?
    ensures s.readyThreads == s.N() <==> Count(Tested, s.threads) == s.N() - 1
  {
    var others := s.threads[t := Done];
    CountUpdate(Tested, s.threads, t, Done);
    CountUpdate(Counted, s.threads, t, Done);
    CountAll(Tested, others);
    CountAll(Counted, others);
    assert Critical(s.threads[t]);
    forall u | 0 <= u < s.N() ensures Tested(others[u]) <==> Counted(others[u]) {
      assert u != t ==> !Critical(s.threads[u]);
    }
  }

  lemma ThreadKeepsTrace(s: State, t: nat)
    requires CountInv(s) && PostInv(s) && TraceInv(s) && t < s.N() && ThreadStep(s, t).Some?
    ensures TraceInv(ThreadStep(s, t).value)
  {
    if s.threads[t].AtReady? {
      ReadyKeepsTrace(s, t);
    } else if s.threads[t].AtGo? {
      GoMeansAllCounted(s, t);
      GoKeepsTrace(s, t);
    } else {
      SilentKeepsTrace(s, t);
    }
  }

  lemma ReadyKeepsTrace(s: State, t: nat)
    requires TraceInv(s) && t < s.N() && s.threads[t].AtReady?
    ensures TraceInv(ThreadStep(s, t).value)
  {
    TraceAppend(s, t, Ready(t), ThreadStep(s, t).value);
  }

  lemma GoKeepsTrace(s: State, t: nat)
    requires TraceInv(s) && t < s.N() && s.threads[t].AtGo?
    requires forall u :: 0 <= u < s.N() ==> Tested(s.threads[u])
    ensures TraceInv(ThreadStep(s, t).value)
  {
    TraceAppend(s, t, Go(t), ThreadStep(s, t).value);
  }

  lemma SilentKeepsTrace(s: State, t: nat)
    requires TraceInv(s) && t < s.N() && ThreadStep(s, t).Some?
    requires !s.threads[t].AtReady? && !s.threads[t].AtGo?
    ensures TraceInv(ThreadStep(s, t).value)
  {
    var s' := ThreadStep(s, t).value;
    if s'.trace != s.trace {
      TraceAppend(s, t, s'.trace[|s.trace|], s');
    } else {
      TraceSame(s, t, s');
    }
  }

  lemma TraceSame(s: State, t: nat, s': State)
    requires TraceInv(s) && t < s.N() && s'.trace == s.trace && s'.main == s.main
    requires s'.N() == s.N() && s'.threads == s.threads[t := s'.threads[t]]
    requires Announced(s'.threads[t]) == Announced(s.threads[t])
    requires s'.threads[t].Done? == s.threads[t].Done?
    ensures TraceInv(s')
  {
  }

  lemma TraceAppend(s: State, t: nat, e: Event, s': State)
    requires TraceInv(s) && t < s.N() && s'.trace == s.trace + [e] && s'.main == s.main
    requires s'.N() == s.N() && s'.threads == s.threads[t := s'.threads[t]]
    requires !e.LockDestroyed? && !e.SemaphoreDestroyed?
    requires if e.Ready? then e.thread == t && !Announced(s.threads[t]) else Announced(s.threads[t])
    requires Announced(s'.threads[t]) && !s.threads[t].Done?
    requires if e.Go? then e.thread == t && s'.threads[t].Done? else !s'.threads[t].Done?
    requires e.Go? ==> forall u :: 0 <= u < s.N() ==> Announced(s.threads[u])
    ensures TraceInv(s')
  {
    assert forall u :: 0 <= u < s.N() && Announced(s.threads[u]) ==> multiset(s.trace)[Ready(u)] == 1;
    GoStaysLate(s.N(), s.trace, e);
  }

  /** A thread past the semaphore implies that every thread has been counted. */
  lemma GoMeansAllCounted(s: State, t: nat)
    requires CountInv(s) && PostInv(s) && t < s.N() && Woken(s.threads[t])
    ensures forall u :: 0 <= u < s.N() ==> Tested(s.threads[u])
  {
    CountAll(Woken, s.threads);
    CountAll(Tested, s.threads);
  }

  lemma StepKeepsInv(s: State, a: Actor)
    requires Inv(s) && Step(s, a).Some?
    ensures Inv(Step(s, a).value)
  {
    match a
    case Main =>
      MainKeepsMain(s);
      MainKeepsLock(s);
      MainKeepsCount(s);
      MainKeepsPost(s);
      MainKeepsTrace(s);
    case Thread(t) =>
      ThreadKeepsMain(s, t);
      ThreadKeepsLock(s, t);
      ThreadKeepsCount(s, t);
      ThreadKeepsPost(s, t);
      ThreadKeepsTrace(s, t);
  }

  // ----- progress -----

  function Rank(pc: Pc, n: nat): nat {
    match pc
    case NotStarted => n + 11
    case AtReady => n + 10
    case AtLock => n + 9
    case AtLoad => n + 8
    case AtStore(_) => n + 7
    case AtTest => n + 6
    case AtPost(i) => if i <= n then n - i + 5 else 5
    case AtUnlock => 4
    case AtWait => 3
    case AtGo => 2
    case Done => 1
  }

  function RankSum(threads: seq<Pc>, n: nat): nat {
    if threads == [] then 0 else RankSum(threads[..|threads| - 1], n) + Rank(threads[|threads| - 1], n)
  }

  lemma {:induction false} RankUpdate(threads: seq<Pc>, t: nat, pc: Pc, n: nat)
    requires t < |threads|
    ensures RankSum(threads[t := pc], n) == RankSum(threads, n) - Rank(threads[t], n) + Rank(pc, n)
  {
    var m := |threads| - 1;
    if t == m {
      assert threads[t := pc][..m] == threads[..m];
    } else {
      RankUpdate(threads[..m], t, pc, n);
      assert threads[t := pc][..m] == threads[..m][t := pc];
    }
  }

  function MainRank(m: MainPc, n: nat): nat {
    match m
    case Creating(i) => n + 4 + (if i <= n then n - i else 0)
    case Joining(i) => 3 + (if i <= n then n - i else 0)
    case DestroyingLock => 2
    case DestroyingSemaphore => 1
    case Finished => 0
  }

  function Measure(s: State): nat {
    RankSum(s.threads, s.N()) + MainRank(s.main, s.N())
  }

  lemma ThreadStepDecreases(s: State, t: nat)
    requires t < s.N() && ThreadStep(s, t).Some?
    ensures Measure(ThreadStep(s, t).value) < Measure(s)
  {
    ThreadRankDrops(s, t);
    RankUpdate(s.threads, t, ThreadStep(s, t).value.threads[t], s.N());
  }

  lemma ThreadRankDrops(s: State, t: nat)
    requires t < s.N() && ThreadStep(s, t).Some?
    ensures var s' := ThreadStep(s, t).value;
            && s'.main == s.main && s'.threads == s.threads[t := s'.threads[t]]
            && Rank(s'.threads[t], s.N()) < Rank(s.threads[t], s.N())
  {
  }

  lemma MainStepDecreases(s: State)
    requires MainInv(s) && MainStep(s).Some?
    ensures Measure(MainStep(s).value) < Measure(s)
  {
    if s.main.Creating? && s.main.i < s.N() {
      RankUpdate(s.threads, s.main.i, AtReady, s.N());
    }
  }

  /** Every step, of whichever thread, comes closer to the end. */
  lemma StepDecreases(s: State, a: Actor)
    requires Inv(s) && Step(s, a).Some?
    ensures Measure(Step(s, a).value) < Measure(s)
  {
    match a
    case Main => MainStepDecreases(s);
    case Thread(t) => ThreadStepDecreases(s, t);
  }

  /** No deadlock: until main has finished, somebody can move. */
  lemma SomeStepEnabled(s: State) returns (a: Actor)
    requires Inv(s) && !s.main.Finished?
    ensures Step(s, a).Some?
  {
    a := Main;
    if s.main.Joining? && s.main.i < s.N() && !s.threads[s.main.i].Done? {
      if s.holder.Some? {
        a := Thread(s.holder.value);
      } else if t: nat :| t < s.N() && !s.threads[t].AtWait? && !s.threads[t].Done? {
        a := Thread(t);
        assert !Critical(s.threads[t]);
      } else {
        WaitingFindsSemaphore(s, s.main.i);
        a := Thread(s.main.i);
      }
    }
  }

  /** When all threads wait or are done, a waiting thread finds the semaphore positive. */
  lemma WaitingFindsSemaphore(s: State, t: nat)
    requires CountInv(s) && PostInv(s) && t < s.N() && s.threads[t].AtWait?
    requires forall u: nat :: u < s.N() ==> s.threads[u].AtWait? || s.threads[u].Done?
    ensures s.semaphore > 0
  {
    CountAll(Tested, s.threads);
    CountAll(Woken, s.threads);
    assert NonePosting(s);
  }

  // ----- runs -----

  /** A run, state by state: each actor of the schedule takes one step. */
  ghost predicate StepByStep(states: seq<State>, schedule: seq<Actor>) {
    && |states| == |schedule| + 1
    && forall k :: 0 <= k < |schedule| ==> Step(states[k], schedule[k]) == Some(states[k + 1])
  }

  /** A schedule runs from s to s' iff there is such a sequence of states. */
  lemma {:induction false} RunIsStepByStep(s: State, schedule: seq<Actor>, s': State)
    ensures Run(s, schedule) == Some(s') <==>
            exists states :: StepByStep(states, schedule) && states[0] == s && states[|schedule|] == s'
  {
    if Run(s, schedule) == Some(s') {
      var states := StatesOfRun(s, schedule);
    }
    forall states | StepByStep(states, schedule) && states[0] == s && states[|schedule|] == s'
      ensures Run(s, schedule) == Some(s')
    {
      RunOfStates(states, schedule);
    }
  }

  lemma {:induction false} StatesOfRun(s: State, schedule: seq<Actor>) returns (states: seq<State>)
    requires Run(s, schedule).Some?
    ensures StepByStep(states, schedule) && states[0] == s && states[|schedule|] == Run(s, schedule).value
  {
    if schedule == [] {
      states := [s];
    } else {
      var front := schedule[..|schedule| - 1];
      states := StatesOfRun(s, front);
      states := states + [Run(s, schedule).value];
      assert forall k :: 0 <= k < |front| ==> schedule[k] == front[k];
    }
  }

  lemma {:induction false} RunOfStates(states: seq<State>, schedule: seq<Actor>)
    requires StepByStep(states, schedule)
    ensures Run(states[0], schedule) == Some(states[|schedule|])
  {
    if schedule != [] {
      RunOfStates(states[..|schedule|], schedule[..|schedule| - 1]);
    }
  }

  lemma RunSnoc(s: State, schedule: seq<Actor>, a: Actor)
    ensures Run(s, schedule + [a])
            == match Run(s, schedule) case None => None case Some(m) => Step(m, a)
  {
    assert (schedule + [a])[..|schedule|] == schedule;
  }

  // ----- when a step is blocked -----

  /** A created, unfinished thread is blocked only at a held mutex or at a semaphore that is zero. */
  lemma ThreadBlockedIff(s: State, t: nat)
    requires t < s.N()
    ensures Step(s, Thread(t)) == None <==>
            || s.threads[t] == NotStarted || s.threads[t] == Done
            || (s.threads[t] == AtLock && s.holder.Some?)
            || (s.threads[t] == AtWait && s.semaphore == 0)
  {
  }

  /** The main thread is blocked only while the thread it joins is not done. */
  lemma MainBlockedIff(s: State)
    ensures Step(s, Main) == None <==>
            || s.main == Finished
            || (s.main.Joining? && s.main.i < s.N() && s.threads[s.main.i] != Done)
  {
  }

  // ----- every schedule -----

  /** After k steps of a run with n threads. */
  ghost predicate OnTheWay(n: nat, k: nat, s: State) {
    Inv(s) && s.N() == n && k + Measure(s) <= Measure(Initial(n))
  }

  lemma OneMoreStep(n: nat, k: nat, s: State, a: Actor)
    requires OnTheWay(n, k, s) && Step(s, a).Some?
    ensures OnTheWay(n, k + 1, Step(s, a).value)
  {
    StepKeepsInv(s, a);
    StepDecreases(s, a);
  }

  lemma {:induction false} RunInv(n: nat, schedule: seq<Actor>)
    requires Run(Initial(n), schedule).Some?
    ensures OnTheWay(n, |schedule|, Run(Initial(n), schedule).value)
  {
    if schedule == [] {
      InitialInv(n);
    } else {
      var front := schedule[..|schedule| - 1];
      RunInv(n, front);
      OneMoreStep(n, |front|, Run(Initial(n), front).value, schedule[|schedule| - 1]);
    }
  }

  /** For every number of threads and every interleaving: each thread goes only after all n threads
      were ready, and is ready and goes at most once. */
  lemma BarrierHolds(n: nat, schedule: seq<Actor>)
    requires Run(Initial(n), schedule).Some?
    ensures var s := Run(Initial(n), schedule).value;
            && GoAfterAllReady(n, s.trace)
            && forall t :: 0 <= t < n ==>
                 multiset(s.trace)[Ready(t)] <= 1 && multiset(s.trace)[Go(t)] <= 1
  {
    RunInv(n, schedule);
  }

  /** Everything is done: each thread was ready once and went once, one thread has posted n times,
      nothing is left on the semaphore, and both objects are destroyed. */
  ghost predicate Complete(s: State) {
    && s.main.Finished? && !s.LockExists() && !s.SemaphoreExists()
    && (forall t :: 0 <= t < s.N() ==>
          && s.threads[t].Done?
          && multiset(s.trace)[Ready(t)] == 1 && multiset(s.trace)[Go(t)] == 1)
    && multiset(s.trace)[LockDestroyed] == 1 && multiset(s.trace)[SemaphoreDestroyed] == 1
    && s.posts == s.N() && OnePoster(s) && s.semaphore == 0 && s.holder == None
  }

  /** Every schedule is finite, and it cannot be continued exactly where everything is done. */
  lemma EveryScheduleFinishes(n: nat, schedule: seq<Actor>)
    requires Run(Initial(n), schedule).Some?
    ensures |schedule| <= Measure(Initial(n))
    ensures var s := Run(Initial(n), schedule).value;
            s.N() == n && ((forall a :: Step(s, a) == None) <==> Complete(s))
  {
    RunInv(n, schedule);
    EndIffComplete(Run(Initial(n), schedule).value);
  }

  ghost predicate RunCompletes(n: nat, schedule: seq<Actor>) {
    Run(Initial(n), schedule).Some? && Complete(Run(Initial(n), schedule).value)
  }

  /** Every run can be continued until everything is done. */
  lemma EveryRunCompletes(n: nat, schedule: seq<Actor>) returns (rest: seq<Actor>)
    requires Run(Initial(n), schedule).Some?
    ensures RunCompletes(n, schedule + rest)
  {
    EveryScheduleFinishes(n, schedule);
    var full := CompletesWithin(n, schedule, Measure(Initial(n)) - |schedule|);
    rest := full[|schedule|..];
    assert schedule + rest == full;
  }

  lemma {:induction false} CompletesWithin(n: nat, schedule: seq<Actor>, left: nat) returns (full: seq<Actor>)
    requires Run(Initial(n), schedule).Some? && left + |schedule| == Measure(Initial(n))
    ensures schedule <= full && RunCompletes(n, full)
    decreases left
  {
    if RunCompletes(n, schedule) {
      full := schedule;
    } else {
      var a := NextActor(n, schedule);
      full := CompletesWithin(n, schedule + [a], left - 1);
    }
  }

  lemma NextActor(n: nat, schedule: seq<Actor>) returns (a: Actor)
    requires Run(Initial(n), schedule).Some? && !RunCompletes(n, schedule)
    ensures Run(Initial(n), schedule + [a]).Some? && |schedule| < Measure(Initial(n))
  {
    var s := Run(Initial(n), schedule).value;
    EveryScheduleFinishes(n, schedule);
    a :| Step(s, a) != None;
    RunSnoc(Initial(n), schedule, a);
    EveryScheduleFinishes(n, schedule + [a]);
  }

  lemma EndIffComplete(s: State)
    requires Inv(s)
    ensures (forall a :: Step(s, a) == None) <==> Complete(s)
  {
    if s.main.Finished? {
      FinishedState(s);
      forall a ensures Step(s, a) == None {
        assert a.Thread? ==> ThreadIdle(s, a.t);
      }
    } else {
      var a := SomeStepEnabled(s);
      assert Step(s, a) != None;
    }
  }

  /** Thread t takes no further step of any kind. */
  predicate ThreadIdle(s: State, t: nat) {
    t < s.N() ==> s.threads[t].Done? && Step(s, Thread(t)) == None
  }

  lemma FinishedState(s: State)
    requires Inv(s) && !s.main.Creating? && !s.main.Joining?
    ensures s.posts == s.N() && OnePoster(s) && s.semaphore == 0 && s.holder == None
    ensures forall t: nat :: ThreadIdle(s, t)
  {
    CountAll(Tested, s.threads);
    CountAll(Woken, s.threads);
    assert NonePosting(s);
    forall t | 0 <= t < s.N() ensures s.holder != Some(t) {
      assert !Critical(s.threads[t]);
    }
  }

  /** Whenever main is about to destroy the mutex or the semaphore, or has done so, no thread will
      ever use them again: all are done, nobody holds the mutex and nobody waits. */
  lemma DestroyedAfterLastUse(n: nat, schedule: seq<Actor>)
    requires Run(Initial(n), schedule).Some?
    ensures var s := Run(Initial(n), schedule).value;
            s.main.DestroyingLock? || !s.LockExists() || !s.SemaphoreExists() ==>
              s.holder == None && forall t: nat :: ThreadIdle(s, t)
  {
    RunInv(n, schedule);
    var s := Run(Initial(n), schedule).value;
    if s.main.DestroyingLock? || !s.LockExists() || !s.SemaphoreExists() {
      FinishedState(s);
    }
  }
}
