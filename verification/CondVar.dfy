/** The condition variable of the WIN32 build: a stack of waiters behind a critical section, and one
    semaphore for each thread.  Any number of threads run; a step is one call of the system, one
    test, or one assignment to a field. */
module CondVar {

  /** A pointer to the waiter record of a thread. */
  datatype Ref = Null | To(t: nat)

  /** Where a thread is.  `Out` is outside of the macros; the other names are those of the next step:
      W of xcondition_wait, S of xcondition_signal, B of xcondition_broadcast. */
  datatype Pc =
    | Out
    | WEnter | WLink | WPush | WLeave | WUnlock | WBlock | WRelock
    | SEnter | STest | SPost | SPop | SLeave
    | BEnter | BStart | BTest(tmp: Ref) | BNext(at: nat) | BClear | BLeave

  /** The threads' places, records and semaphores, the condition variable, and the mutex.  `posts`
      and `woken` count, for each thread, the calls of ReleaseSemaphore on its semaphore and the
      waits on it that have ended. */
  datatype State = State(
    pc: seq<Pc>,
    next: seq<Ref>,
    sem: seq<nat>,
    posts: seq<nat>,
    woken: seq<nat>,
    waiters: Ref,
    cs: Ref,
    mutex: Ref)

  predicate Shaped(s: State) {
    |s.next| == |s.pc| == |s.sem| == |s.posts| == |s.woken|
  }

  const SEM_MAX := 1

  // ----- the steps -----

  function Goto(s: State, t: nat, pc: Pc): State
    requires t < |s.pc|
  {
    s.(pc := s.pc[t := pc])
  }

  /** ReleaseSemaphore(sem, 1, NULL): nothing happens to a semaphore that is at its maximum. */
  function Post(s: State, u: nat): State
    requires Shaped(s) && u < |s.pc|
  {
    s.(sem := s.sem[u := if s.sem[u] < SEM_MAX then s.sem[u] + 1 else s.sem[u]],
       posts := s.posts[u := s.posts[u] + 1])
  }

  /** A thread outside of the macros takes or leaves the mutex, or begins one of them.  It waits
      only with the mutex in its hands. */
  predicate StepOut(s: State, s': State, t: nat)
    requires t < |s.pc|
  {
    || (s.mutex == Null && s' == s.(mutex := To(t)))
    || (s.mutex == To(t) && s' == s.(mutex := Null))
    || (s.mutex == To(t) && s' == Goto(s, t, WEnter))
    || s' == Goto(s, t, SEnter)
    || s' == Goto(s, t, BEnter)
  }

  predicate StepWait(s: State, s': State, t: nat)
    requires Shaped(s) && t < |s.pc|
  {
    match s.pc[t]
    case WEnter => s.cs == Null && s' == Goto(s.(cs := To(t)), t, WLink)
    case WLink => s' == Goto(s.(next := s.next[t := s.waiters]), t, WPush)
    case WPush => s' == Goto(s.(waiters := To(t)), t, WLeave)
    case WLeave => s' == Goto(s.(cs := Null), t, WUnlock)
    case WUnlock => s' == Goto(s.(mutex := Null), t, WBlock)
    case WBlock => s.sem[t] > 0 &&
                   s' == Goto(s.(sem := s.sem[t := s.sem[t] - 1], woken := s.woken[t := s.woken[t] + 1]), t, WRelock)
    case WRelock => s.mutex == Null && s' == Goto(s.(mutex := To(t)), t, Out)
    case _ => false
  }

  predicate StepSignal(s: State, s': State, t: nat)
    requires Shaped(s) && t < |s.pc|
  {
    match s.pc[t]
    case SEnter => s.cs == Null && s' == Goto(s.(cs := To(t)), t, STest)
    case STest => s' == Goto(s, t, if s.waiters == Null then SLeave else SPost)
    case SPost => s.waiters.To? && s.waiters.t < |s.pc| && s' == Goto(Post(s, s.waiters.t), t, SPop)
    case SPop => s.waiters.To? && s.waiters.t < |s.pc| && s' == Goto(s.(waiters := s.next[s.waiters.t]), t, SLeave)
    case SLeave => s' == Goto(s.(cs := Null), t, Out)
    case _ => false
  }

  predicate StepBroadcast(s: State, s': State, t: nat)
    requires Shaped(s) && t < |s.pc|
  {
    match s.pc[t]
    case BEnter => s.cs == Null && s' == Goto(s.(cs := To(t)), t, BStart)
    case BStart => s' == Goto(s, t, BTest(s.waiters))
    case BTest(tmp) =>
      if tmp == Null then s' == Goto(s, t, BClear)
      else tmp.t < |s.pc| && s' == Goto(Post(s, tmp.t), t, BNext(tmp.t))
    case BNext(u) => u < |s.pc| && s' == Goto(s, t, BTest(s.next[u]))
    case BClear => s' == Goto(s.(waiters := Null), t, BLeave)
    case BLeave => s' == Goto(s.(cs := Null), t, Out)
    case _ => false
  }

  /** Thread t takes a step. */
  predicate Step(s: State, s': State, t: nat) {
    Shaped(s) && t < |s.pc| &&
    if s.pc[t].Out? then StepOut(s, s', t)
    else StepWait(s, s', t) || StepSignal(s, s', t) || StepBroadcast(s, s', t)
  }

  /** After xcondition_init(), with semaphores that have just been created. */
  predicate Init(s: State) {
    && Shaped(s) && s.waiters == Null && s.cs == Null && s.mutex == Null
    && forall t | 0 <= t < |s.pc| :: s.pc[t] == Out && s.sem[t] == 0 && s.posts[t] == 0 && s.woken[t] == 0
  }

  ghost predicate ReachesIn(n: nat, s: State) {
    if n == 0 then Init(s) else exists r, t :: ReachesIn(n - 1, r) && Step(r, s, t)
  }

  ghost predicate Reachable(s: State) {
    exists n: nat :: ReachesIn(n, s)
  }

  // ----- the list -----

  /** The records from `head` on are those of the threads `xs`, in this order. */
  predicate Chain(next: seq<Ref>, head: Ref, xs: seq<nat>)
    decreases |xs|
  {
    if xs == [] then head == Null
    else xs[0] < |next| && head == To(xs[0]) && Chain(next, next[xs[0]], xs[1..])
  }

  predicate Distinct(xs: seq<nat>) {
    forall i, j | 0 <= i < j < |xs| :: xs[i] != xs[j]
  }

  // ----- the invariant -----

  /** In the section that the critical section `cs` guards. */
  predicate Guarded(p: Pc) {
    p.WLink? || p.WPush? || p.WLeave? || p.STest? || p.SPost? || p.SPop? || p.SLeave?
    || p.BStart? || p.BTest? || p.BNext? || p.BClear? || p.BLeave?
  }

  /** In xcondition_wait with the mutex still held. */
  predicate Holding(p: Pc) {
    p.WEnter? || p.WLink? || p.WPush? || p.WLeave? || p.WUnlock?
  }

  /** In xcondition_wait with the mutex given up. */
  predicate Released(p: Pc) {
    p.WBlock? || p.WRelock?
  }

  /** Enqueued, and not woken yet. */
  predicate Enqueued(p: Pc) {
    p.WLeave? || p.WUnlock? || p.WBlock?
  }

  /** The first `k` threads of the list have been posted in the section that is being executed. */
  predicate Progress(s: State, xs: seq<nat>, k: nat)
    requires Shaped(s) && k <= |xs|
  {
    match s.cs
    case Null => k == 0
    case To(t) =>
      t < |s.pc| && Guarded(s.pc[t]) &&
      match s.pc[t]
      case WPush => k == 0 && s.next[t] == s.waiters
      case SPost => k == 0 && xs != []
      case SPop => k == 1
      case BTest(tmp) => Chain(s.next, tmp, xs[k..])
      case BNext(u) => k >= 1 && u == xs[k - 1]
      case BClear => k == |xs|
      case _ => k == 0
  }

  predicate OkThread(s: State, xs: seq<nat>, k: nat, t: nat)
    requires Shaped(s) && t < |s.pc| && k <= |xs|
  {
    && (Guarded(s.pc[t]) ==> s.cs == To(t))
    && (Holding(s.pc[t]) ==> s.mutex == To(t))
    && (Released(s.pc[t]) ==> s.mutex != To(t))
    && s.posts[t] == s.woken[t] + s.sem[t]
    && s.sem[t] == (if Enqueued(s.pc[t]) && t !in xs[k..] then 1 else 0)
    && (t in xs[k..] ==> Enqueued(s.pc[t]))
  }

  /** What every step keeps. */
  predicate Inv(s: State, xs: seq<nat>, k: nat) {
    && Shaped(s) && k <= |xs| && Progress(s, xs, k)
    && Chain(s.next, s.waiters, xs) && Distinct(xs)
    && forall t | 0 <= t < |s.pc| :: OkThread(s, xs, k, t)
  }

  lemma InitInv(s: State)
    requires Init(s)
    ensures Inv(s, [], 0)
  {
  }

  lemma {:induction false} ChainFrame(next: seq<Ref>, head: Ref, xs: seq<nat>, t: nat, r: Ref)
    requires Chain(next, head, xs) && t < |next| && t !in xs
    ensures Chain(next[t := r], head, xs)
    decreases |xs|
  {
    if xs != [] { ChainFrame(next, next[xs[0]], xs[1..], t, r); }
  }

  /** Every step keeps the invariant.  `xs'` is the list after it. */
  lemma StepKeeps(s: State, s': State, t: nat, xs: seq<nat>, k: nat) returns (xs': seq<nat>, k': nat)
    requires Inv(s, xs, k) && Step(s, s', t)
    ensures Inv(s', xs', k') && Evolves(s, t, xs, k, xs', k')
  {
    if s.pc[t].Out? { OutKeeps(s, s', t, xs, k); xs', k' := xs, k; }
    else if StepWait(s, s', t) { xs', k' := WaitKeeps(s, s', t, xs, k); }
    else if StepSignal(s, s', t) { xs', k' := SignalKeeps(s, s', t, xs, k); }
    else { xs', k' := BroadcastKeeps(s, s', t, xs, k); }
  }

  /** How the list, and the posted part of it, change in one step. */
  predicate Evolves(s: State, t: nat, xs: seq<nat>, k: nat, xs': seq<nat>, k': nat)
    requires t < |s.pc|
  {
    match s.pc[t]
    case WPush => xs' == [t] + xs && k == k' == 0
    case SPost => xs' == xs && k == 0 && k' == 1
    case SPop => |xs| >= 1 && xs' == xs[1..] && k == 1 && k' == 0
    case BTest(tmp) => xs' == xs && k' == if tmp == Null then k else k + 1
    case BClear => xs' == [] && k == |xs| && k' == 0
    case _ => xs' == xs && k' == k
  }

  /** A step of a thread outside of the section leaves the section's progress alone. */
  lemma ProgressFrame(s: State, s': State, t: nat, xs: seq<nat>, k: nat)
    requires Shaped(s) && Shaped(s') && k <= |xs| && t < |s.pc| && Progress(s, xs, k)
    requires s'.cs == s.cs && s'.next == s.next && s'.waiters == s.waiters && s.cs != To(t)
    requires |s'.pc| == |s.pc| && forall u | 0 <= u < |s.pc| && u != t :: s'.pc[u] == s.pc[u]
    ensures Progress(s', xs, k)
  {
    hide Chain;
  }

  lemma OutKeeps(s: State, s': State, t: nat, xs: seq<nat>, k: nat)
    requires Inv(s, xs, k) && t < |s.pc| && s.pc[t].Out? && StepOut(s, s', t)
    ensures Inv(s', xs, k)
  {
    hide Chain, Distinct;
    assert OkThread(s, xs, k, t);
    assert s.cs != To(t);
    ProgressFrame(s, s', t, xs, k);
    forall u | 0 <= u < |s.pc| ensures OkThread(s', xs, k, u) {
      assert OkThread(s, xs, k, u);
    }
  }

  lemma WaitKeeps(s: State, s': State, t: nat, xs: seq<nat>, k: nat) returns (xs': seq<nat>, k': nat)
    requires Inv(s, xs, k) && t < |s.pc| && StepWait(s, s', t)
    ensures Inv(s', xs', k') && Evolves(s, t, xs, k, xs', k')
  {
    hide Inv;
    xs', k' := if s.pc[t].WPush? then [t] + xs else xs, k;
    if s.pc[t].WLink? || s.pc[t].WPush? { PushKeeps(s, s', t, xs, k, xs'); }
    else if s.pc[t].WEnter? || s.pc[t].WLeave? { DoorKeeps(s, s', t, xs, k); }
    else { BlockKeeps(s, s', t, xs, k); }
  }

  /** The thread's record is put in front of the list. */
  lemma PushKeeps(s: State, s': State, t: nat, xs: seq<nat>, k: nat, xs': seq<nat>)
    requires Inv(s, xs, k) && t < |s.pc| && StepWait(s, s', t) && (s.pc[t].WLink? || s.pc[t].WPush?)
    requires xs' == if s.pc[t].WPush? then [t] + xs else xs
    ensures k == 0 && Inv(s', xs', k)
  {
    hide Chain;
    assert OkThread(s, xs, k, t);
    assert xs[0..] == xs && xs'[0..] == xs';
    if s.pc[t].WLink? { LinkKeeps(s, s', t, xs); } else { HeadKeeps(s, s', t, xs); }
  }

  /** The record points to the list. */
  lemma LinkKeeps(s: State, s': State, t: nat, xs: seq<nat>)
    requires Inv(s, xs, 0) && t < |s.pc| && StepWait(s, s', t) && s.pc[t].WLink?
    ensures Inv(s', xs, 0)
  {
    hide Chain, Distinct;
    assert OkThread(s, xs, 0, t);
    assert xs[0..] == xs;
    ChainFrame(s.next, s.waiters, xs, t, s.waiters);
    forall u | 0 <= u < |s.pc| ensures OkThread(s', xs, 0, u) {
      assert OkThread(s, xs, 0, u);
    }
  }

  /** The list begins with the record. */
  lemma HeadKeeps(s: State, s': State, t: nat, xs: seq<nat>)
    requires Inv(s, xs, 0) && t < |s.pc| && StepWait(s, s', t) && s.pc[t].WPush?
    ensures Inv(s', [t] + xs, 0)
  {
    hide Chain;
    assert OkThread(s, xs, 0, t);
    assert xs[0..] == xs && ([t] + xs)[0..] == [t] + xs;
    ChainGrows(s.next, t, xs);
    forall u | 0 <= u < |s.pc| ensures OkThread(s', [t] + xs, 0, u) {
      assert OkThread(s, xs, 0, u);
    }
  }

  /** The section is entered or left. */
  lemma DoorKeeps(s: State, s': State, t: nat, xs: seq<nat>, k: nat)
    requires Inv(s, xs, k) && t < |s.pc| && StepWait(s, s', t) && (s.pc[t].WEnter? || s.pc[t].WLeave?)
    ensures Inv(s', xs, k)
  {
    hide Chain, Distinct;
    assert OkThread(s, xs, k, t);
    forall u | 0 <= u < |s.pc| ensures OkThread(s', xs, k, u) {
      assert OkThread(s, xs, k, u);
    }
  }

  lemma BlockKeeps(s: State, s': State, t: nat, xs: seq<nat>, k: nat)
    requires Inv(s, xs, k) && t < |s.pc| && StepWait(s, s', t) && (s.pc[t].WUnlock? || s.pc[t].WBlock? || s.pc[t].WRelock?)
    ensures Inv(s', xs, k)
  {
    hide Chain, Distinct;
    assert OkThread(s, xs, k, t);
    assert s.cs != To(t);
    ProgressFrame(s, s', t, xs, k);
    forall u | 0 <= u < |s.pc| ensures OkThread(s', xs, k, u) {
      assert OkThread(s, xs, k, u);
    }
  }

  lemma ChainGrows(next: seq<Ref>, t: nat, xs: seq<nat>)
    requires t < |next| && Chain(next, next[t], xs)
    ensures Chain(next, To(t), [t] + xs)
  {
    assert ([t] + xs)[1..] == xs;
  }

  lemma SignalKeeps(s: State, s': State, t: nat, xs: seq<nat>, k: nat) returns (xs': seq<nat>, k': nat)
    requires Inv(s, xs, k) && t < |s.pc| && StepSignal(s, s', t)
    ensures Inv(s', xs', k') && Evolves(s, t, xs, k, xs', k')
  {
    assert OkThread(s, xs, k, t);
    xs', k' := xs, k;
    if s.pc[t].SPost? { k' := 1; }
    if s.pc[t].SPop? { xs', k' := xs[1..], 0; }
    forall u | 0 <= u < |s.pc| ensures OkThread(s', xs', k', u) {
      assert OkThread(s, xs, k, u);
    }
  }

  lemma {:induction false} ChainFrom(next: seq<Ref>, head: Ref, xs: seq<nat>, k: nat)
    requires Chain(next, head, xs) && 1 <= k <= |xs|
    ensures xs[k - 1] < |next| && Chain(next, next[xs[k - 1]], xs[k..])
    decreases k
  {
    if k > 1 {
      ChainFrom(next, next[xs[0]], xs[1..], k - 1);
      assert xs[1..][k - 1..] == xs[k..];
    }
  }

  lemma BroadcastKeeps(s: State, s': State, t: nat, xs: seq<nat>, k: nat) returns (xs': seq<nat>, k': nat)
    requires Inv(s, xs, k) && t < |s.pc| && StepBroadcast(s, s', t)
    ensures Inv(s', xs', k') && Evolves(s, t, xs, k, xs', k')
  {
    assert OkThread(s, xs, k, t);
    if s.pc[t].BTest? && s.pc[t].tmp.To? {
      BroadcastPosts(s, s', t, xs, k);
      xs', k' := xs, k + 1;
    } else if s.pc[t].BNext? {
      ChainFrom(s.next, s.waiters, xs, k);
      xs', k' := xs, k;
      BroadcastElsewhere(s, s', t, xs, k, xs', k');
    } else {
      xs', k' := if s.pc[t].BClear? then [] else xs, if s.pc[t].BClear? then 0 else k;
      BroadcastElsewhere(s, s', t, xs, k, xs', k');
    }
  }

  lemma BroadcastPosts(s: State, s': State, t: nat, xs: seq<nat>, k: nat)
    requires Inv(s, xs, k) && t < |s.pc| && s.pc[t].BTest? && s.pc[t].tmp.To? && StepBroadcast(s, s', t)
    ensures k < |xs| && Inv(s', xs, k + 1)
  {
    assert OkThread(s, xs, k, t);
    assert xs[k..] != [] && xs[k..][0] == xs[k] && s.pc[t].tmp.t == xs[k];
    assert xs[k + 1..] == xs[k..][1..];
    hide Chain;
    var k' := k + 1;
    forall u | 0 <= u < |s.pc| ensures OkThread(s', xs, k', u) {
      assert OkThread(s, xs, k, u);
      if u == xs[k] { assert u !in xs[k'..]; }
    }
  }

  lemma BroadcastElsewhere(s: State, s': State, t: nat, xs: seq<nat>, k: nat, xs': seq<nat>, k': nat)
    requires Inv(s, xs, k) && t < |s.pc| && StepBroadcast(s, s', t) && !(s.pc[t].BTest? && s.pc[t].tmp.To?)
    requires Evolves(s, t, xs, k, xs', k')
    requires s.pc[t].BNext? ==> s.pc[t].at < |s.next| && Chain(s.next, s.next[s.pc[t].at], xs[k..])
    ensures Inv(s', xs', k')
  {
    assert OkThread(s, xs, k, t);
    assert xs[0..] == xs;
    forall u | 0 <= u < |s.pc| ensures OkThread(s', xs', k', u) {
      assert OkThread(s, xs, k, u);
    }
  }

  // ----- what holds in every reachable state -----

  lemma {:induction false} ReachableKeeps(n: nat, s: State) returns (xs: seq<nat>, k: nat)
    requires ReachesIn(n, s)
    ensures Inv(s, xs, k)
    decreases n
  {
    hide Inv, Step, Init;
    if n == 0 {
      InitInv(s);
      xs, k := [], 0;
    } else {
      var r, t :| ReachesIn(n - 1, r) && Step(r, s, t);
      xs, k := ReachableKeeps(n - 1, r);
      xs, k := StepKeeps(r, s, t, xs, k);
    }
  }

  /** The waiter list of every reachable state ends and names no thread twice, no semaphore is above
      1, and what has been posted on it has been used up by waits or is still there. */
  lemma AlwaysAList(s: State)
    requires Reachable(s)
    ensures exists xs :: Chain(s.next, s.waiters, xs) && Distinct(xs)
    ensures Shaped(s) && forall t | 0 <= t < |s.pc| :: s.sem[t] <= 1 && s.posts[t] == s.woken[t] + s.sem[t]
  {
    var n: nat :| ReachesIn(n, s);
    var xs, k := ReachableKeeps(n, s);
    forall t | 0 <= t < |s.pc| ensures s.sem[t] <= 1 && s.posts[t] == s.woken[t] + s.sem[t] {
      assert OkThread(s, xs, k, t);
    }
  }

  /** Is some thread signalling or broadcasting? */
  predicate Posting(s: State) {
    s.cs.To? && s.cs.t < |s.pc| && (s.pc[s.cs.t].SPop? || s.pc[s.cs.t].BTest? || s.pc[s.cs.t].BNext? || s.pc[s.cs.t].BClear?)
  }

  /** Outside of such a section a thread that waits is either in the list or posted, and never both;
      every other thread is neither. */
  lemma ListedOrPosted(s: State, xs: seq<nat>, t: nat)
    requires Reachable(s) && !Posting(s) && Chain(s.next, s.waiters, xs) && t < |s.pc|
    ensures Shaped(s)
    ensures Enqueued(s.pc[t]) ==> (t in xs <==> s.sem[t] == 0)
    ensures !Enqueued(s.pc[t]) ==> t !in xs && s.sem[t] == 0
  {
    var n: nat :| ReachesIn(n, s);
    var ys, k := ReachableKeeps(n, s);
    ChainUnique(s.next, s.waiters, xs, ys);
    assert k == 0 && ys[0..] == ys;
    assert OkThread(s, ys, k, t);
  }

  lemma {:induction false} ChainUnique(next: seq<Ref>, head: Ref, xs: seq<nat>, ys: seq<nat>)
    requires Chain(next, head, xs) && Chain(next, head, ys)
    ensures xs == ys
    decreases |xs|
  {
    if xs != [] { ChainUnique(next, next[xs[0]], xs[1..], ys[1..]); }
  }

  /** No post is lost: a semaphore that is released was at 0, and its thread is waiting. */
  lemma PostsArrive(s: State, s': State, t: nat, u: nat)
    requires Reachable(s) && Step(s, s', t) && Shaped(s') && u < |s.pc| == |s'.pc| && s'.posts[u] != s.posts[u]
    ensures s'.posts[u] == s.posts[u] + 1 && s.sem[u] == 0 && s'.sem[u] == 1 && Enqueued(s.pc[u])
  {
    var n: nat :| ReachesIn(n, s);
    var xs, k := ReachableKeeps(n, s);
    assert OkThread(s, xs, k, u);
    assert OkThread(s, xs, k, t);
    if s.pc[t].SPost? { assert xs[0..][0] == xs[0] == u; }
    if s.pc[t].BTest? { assert xs[k..][0] == u; }
  }

  // ----- the mutex -----

  /** In xcondition_wait. */
  predicate Waiting(p: Pc) {
    Holding(p) || Released(p)
  }

  /** A thread that is blocked in a wait, or woken and not yet back, does not hold the mutex; before that
      it does. */
  lemma WaitsWithout(s: State, t: nat)
    requires Reachable(s) && t < |s.pc| && Waiting(s.pc[t])
    ensures s.mutex == To(t) <==> Holding(s.pc[t])
  {
    var n: nat :| ReachesIn(n, s);
    var xs, k := ReachableKeeps(n, s);
    assert OkThread(s, xs, k, t);
  }

  /** From a to b in n steps of any threads; thread t is in its wait all the time, but possibly at b. */
  ghost predicate Waits(n: nat, a: State, b: State, t: nat) {
    if n == 0 then a == b
    else exists r, u :: Waits(n - 1, a, r, t) && t < |r.pc| && Waiting(r.pc[t]) && Step(r, b, u)
  }

  /** A step of another thread leaves a thread where it is, and what it has been through. */
  lemma OtherStep(r: State, b: State, t: nat, u: nat)
    requires t < |r.pc| && Step(r, b, u) && u != t
    ensures Shaped(r) && Shaped(b) && |b.pc| == |r.pc| && b.pc[t] == r.pc[t] && b.woken[t] == r.woken[t]
  {
    if r.pc[u].Out? { OtherOut(r, b, t, u); }
    else if StepWait(r, b, u) { OtherWait(r, b, t, u); }
    else if StepSignal(r, b, u) { OtherSignal(r, b, t, u); }
    else { OtherBroadcast(r, b, t, u); }
  }

  lemma OtherOut(r: State, b: State, t: nat, u: nat)
    requires Shaped(r) && t < |r.pc| && u < |r.pc| && StepOut(r, b, u) && u != t
    ensures Shaped(b) && |b.pc| == |r.pc| && b.pc[t] == r.pc[t] && b.woken[t] == r.woken[t]
  {
  }

  lemma OtherWait(r: State, b: State, t: nat, u: nat)
    requires Shaped(r) && t < |r.pc| && u < |r.pc| && StepWait(r, b, u) && u != t
    ensures Shaped(b) && |b.pc| == |r.pc| && b.pc[t] == r.pc[t] && b.woken[t] == r.woken[t]
  {
  }

  lemma OtherSignal(r: State, b: State, t: nat, u: nat)
    requires Shaped(r) && t < |r.pc| && u < |r.pc| && StepSignal(r, b, u) && u != t
    ensures Shaped(b) && |b.pc| == |r.pc| && b.pc[t] == r.pc[t] && b.woken[t] == r.woken[t]
  {
  }

  lemma OtherBroadcast(r: State, b: State, t: nat, u: nat)
    requires Shaped(r) && t < |r.pc| && u < |r.pc| && StepBroadcast(r, b, u) && u != t
    ensures Shaped(b) && |b.pc| == |r.pc| && b.pc[t] == r.pc[t] && b.woken[t] == r.woken[t]
  {
  }

  /** A step of the waiting thread itself. */
  lemma OwnWaitStep(r: State, b: State, t: nat)
    requires t < |r.pc| && Waiting(r.pc[t]) && Step(r, b, t)
    ensures Shaped(r) && Shaped(b) && |b.pc| == |r.pc| && (b.pc[t] == Out || Waiting(b.pc[t])) && b.pc[t] != WEnter
    ensures b.pc[t] == Out ==> r.pc[t] == WRelock && b.mutex == To(t)
    ensures b.pc[t] == WRelock <==> r.pc[t] == WBlock
    ensures b.woken[t] == r.woken[t] + if r.pc[t] == WBlock then 1 else 0
  {
    OnlyWaits(r, b, t);
    hide StepSignal, StepBroadcast, StepOut, Step;
  }

  lemma OnlyWaits(r: State, b: State, t: nat)
    requires t < |r.pc| && Waiting(r.pc[t]) && Step(r, b, t)
    ensures Shaped(r) && StepWait(r, b, t)
  {
    hide StepWait, StepOut;
  }

  /** One step while t waits: of another thread, or its own. */
  lemma WaitStep(r: State, b: State, t: nat, u: nat)
    requires t < |r.pc| && Waiting(r.pc[t]) && Step(r, b, u)
    ensures t < |b.pc| && (b.pc[t] == Out || Waiting(b.pc[t])) && (b.pc[t] == Out ==> b.mutex == To(t))
  {
    if u == t { OwnWaitStep(r, b, t); } else { OtherStep(r, b, t, u); }
    hide Step;
  }

  /** A wait returns with the mutex in the hands of its thread, however many steps of how many threads
      lie between. */
  lemma {:induction false} WaitReturnsHolding(n: nat, a: State, b: State, t: nat)
    requires t < |a.pc| && a.pc[t] == WEnter && Waits(n, a, b, t)
    ensures t < |b.pc| && (Waiting(b.pc[t]) || (b.pc[t] == Out && b.mutex == To(t)))
    decreases n
  {
    hide Step;
    if n > 0 {
      var r, u :| Waits(n - 1, a, r, t) && t < |r.pc| && Waiting(r.pc[t]) && Step(r, b, u);
      WaitStep(r, b, t, u);
    }
  }

  /** In n steps of thread t alone. */
  ghost predicate StepsAlone(n: nat, a: State, b: State, t: nat) {
    if n == 0 then a == b else exists r :: Step(a, r, t) && StepsAlone(n - 1, r, b, t)
  }

  /** A thread that has been posted, or woken, comes back with the mutex as soon as the mutex is free: one
      or two steps of its own are enough. */
  lemma CanReturn(s: State, t: nat) returns (n: nat, s': State)
    requires Reachable(s) && t < |s.pc| && s.mutex == Null
    requires s.pc[t] == WRelock || (s.pc[t] == WBlock && t < |s.sem| && s.sem[t] > 0)
    ensures StepsAlone(n, s, s', t) && t < |s'.pc| && s'.pc[t] == Out && s'.mutex == To(t)
  {
    AlwaysAList(s);
    hide *;
    if s.pc[t] == WBlock {
      var r := Wakes(s, t);
      s' := Relocks(r, t);
      n := 2;
      TwoSteps(s, r, s', t);
    } else {
      s' := Relocks(s, t);
      n := 1;
      OneStep(s, s', t);
    }
  }

  lemma Wakes(s: State, t: nat) returns (r: State)
    requires Shaped(s) && t < |s.pc| && s.pc[t] == WBlock && s.sem[t] > 0
    ensures Step(s, r, t) && Shaped(r) && t < |r.pc| && r.pc[t] == WRelock && r.mutex == s.mutex
  {
    r := Goto(s.(sem := s.sem[t := s.sem[t] - 1], woken := s.woken[t := s.woken[t] + 1]), t, WRelock);
    hide StepSignal, StepBroadcast, StepOut;
  }

  lemma Relocks(s: State, t: nat) returns (r: State)
    requires Shaped(s) && t < |s.pc| && s.pc[t] == WRelock && s.mutex == Null
    ensures Step(s, r, t) && t < |r.pc| && r.pc[t] == Out && r.mutex == To(t)
  {
    r := Goto(s.(mutex := To(t)), t, Out);
    hide StepSignal, StepBroadcast, StepOut;
  }

  lemma OneStep(a: State, b: State, t: nat)
    requires Step(a, b, t)
    ensures StepsAlone(1, a, b, t)
  {
    hide Step;
    assert StepsAlone(0, b, b, t);
  }

  lemma TwoSteps(a: State, r: State, b: State, t: nat)
    requires Step(a, r, t) && Step(r, b, t)
    ensures StepsAlone(2, a, b, t)
  {
    hide Step;
    OneStep(r, b, t);
  }

  // ----- who can go on -----

  /** What a thread can be held up by: an occupied section, an empty semaphore, a mutex that is taken. */
  predicate Blocked(s: State, t: nat)
    requires Shaped(s) && t < |s.pc|
  {
    match s.pc[t]
    case WEnter => s.cs != Null
    case SEnter => s.cs != Null
    case BEnter => s.cs != Null
    case WBlock => s.sem[t] == 0
    case WRelock => s.mutex != Null
    case _ => false
  }

  ghost predicate CanStep(s: State, t: nat) {
    exists s' :: Step(s, s', t)
  }

  /** Nothing else holds a thread up, in any reachable state. */
  lemma StepsUnlessBlocked(s: State, t: nat)
    requires Reachable(s) && Shaped(s) && t < |s.pc|
    ensures CanStep(s, t) <==> !Blocked(s, t)
  {
    var n: nat :| ReachesIn(n, s);
    var xs, k := ReachableKeeps(n, s);
    assert OkThread(s, xs, k, t);
    if !Blocked(s, t) {
      if s.pc[t].Out? { assert Step(s, Goto(s, t, SEnter), t); }
      else if Waiting(s.pc[t]) { WaitCanStep(s, t); }
      else { SectionCanStep(s, t, xs, k); }
    }
  }

  lemma WaitCanStep(s: State, t: nat)
    requires Shaped(s) && t < |s.pc| && Waiting(s.pc[t]) && !Blocked(s, t)
    ensures CanStep(s, t)
  {
    var s' :=
      match s.pc[t]
      case WEnter => Goto(s.(cs := To(t)), t, WLink)
      case WLink => Goto(s.(next := s.next[t := s.waiters]), t, WPush)
      case WPush => Goto(s.(waiters := To(t)), t, WLeave)
      case WLeave => Goto(s.(cs := Null), t, WUnlock)
      case WUnlock => Goto(s.(mutex := Null), t, WBlock)
      case WBlock => Goto(s.(sem := s.sem[t := s.sem[t] - 1], woken := s.woken[t := s.woken[t] + 1]), t, WRelock)
      case WRelock => Goto(s.(mutex := To(t)), t, Out)
      case _ => s;
    assert Step(s, s', t);
  }

  /** A signal or a broadcast finds the records that it goes on to. */
  lemma SectionCanStep(s: State, t: nat, xs: seq<nat>, k: nat)
    requires Inv(s, xs, k) && t < |s.pc| && !s.pc[t].Out? && !Waiting(s.pc[t]) && !Blocked(s, t)
    ensures CanStep(s, t)
  {
    assert OkThread(s, xs, k, t);
    RecordsAreThere(s, t, xs, k);
    var s' :=
      match s.pc[t]
      case SEnter => Goto(s.(cs := To(t)), t, STest)
      case STest => Goto(s, t, if s.waiters == Null then SLeave else SPost)
      case SPost => Goto(Post(s, s.waiters.t), t, SPop)
      case SPop => Goto(s.(waiters := s.next[s.waiters.t]), t, SLeave)
      case BEnter => Goto(s.(cs := To(t)), t, BStart)
      case BStart => Goto(s, t, BTest(s.waiters))
      case BTest(tmp) => if tmp == Null then Goto(s, t, BClear) else Goto(Post(s, tmp.t), t, BNext(tmp.t))
      case BNext(u) => Goto(s, t, BTest(s.next[u]))
      case BClear => Goto(s.(waiters := Null), t, BLeave)
      case SLeave => Goto(s.(cs := Null), t, Out)
      case BLeave => Goto(s.(cs := Null), t, Out)
      case _ => s;
    assert Step(s, s', t);
  }

  lemma RecordsAreThere(s: State, t: nat, xs: seq<nat>, k: nat)
    requires Inv(s, xs, k) && t < |s.pc|
    ensures s.pc[t].SPost? || s.pc[t].SPop? ==> s.waiters.To? && s.waiters.t < |s.pc|
    ensures s.pc[t].BTest? && s.pc[t].tmp.To? ==> s.pc[t].tmp.t < |s.pc|
    ensures s.pc[t].BNext? ==> s.pc[t].at < |s.pc|
  {
    assert OkThread(s, xs, k, t);
    if s.pc[t].BNext? { ChainFrom(s.next, s.waiters, xs, k); }
  }

  // ----- one section, while every other thread goes on -----

  /** From a to b in n steps of any threads, with thread t in its section all the time. */
  ghost predicate Within(n: nat, a: State, b: State, t: nat) {
    if n == 0 then a == b && a.cs == To(t)
    else b.cs == To(t) && exists r, u :: Within(n - 1, a, r, t) && Step(r, b, u)
  }

  /** Other threads post nothing, and leave the list as it is. */
  lemma OthersWait(s: State, s': State, t: nat, u: nat, xs: seq<nat>, k: nat)
    requires Inv(s, xs, k) && s.cs == To(t) && t < |s.pc| && Step(s, s', u) && u != t
    ensures Inv(s', xs, k) && s'.posts == s.posts && |s'.pc| == |s.pc| && s'.pc[t] == s.pc[t]
  {
    assert OkThread(s, xs, k, u);
    assert !Guarded(s.pc[u]);
    var xs', k' := StepKeeps(s, s', u, xs, k);
  }

  lemma {:induction false} WithinEnters(n: nat, a: State, b: State, t: nat)
    requires Within(n, a, b, t)
    ensures a.cs == To(t) && b.cs == To(t)
    decreases n
  {
    hide Step;
    if n > 0 {
      var r, u :| Within(n - 1, a, r, t) && Step(r, b, u);
      WithinEnters(n - 1, a, r, t);
    }
  }

  /** One more post for each thread of `ps`. */
  predicate PostedOnce(a: State, b: State, ps: seq<nat>) {
    && |a.posts| == |b.posts|
    && forall u | 0 <= u < |a.posts| :: b.posts[u] == a.posts[u] + if u in ps then 1 else 0
  }

  /** How far a broadcast that began with the list `xs` has come. */
  predicate Broadcasting(a: State, b: State, t: nat, xs: seq<nat>, k: nat) {
    && t < |b.pc| && k <= |xs| && PostedOnce(a, b, xs[..k])
    && (if b.pc[t].BLeave? then k == |xs| && Inv(b, [], 0)
        else (b.pc[t].BStart? || b.pc[t].BTest? || b.pc[t].BNext? || b.pc[t].BClear?) && Inv(b, xs, k))
  }

  lemma {:induction false} BroadcastRuns(n: nat, a: State, b: State, t: nat, xs: seq<nat>) returns (k: nat)
    requires Inv(a, xs, 0) && t < |a.pc| && a.pc[t] == BStart && Within(n, a, b, t)
    ensures Broadcasting(a, b, t, xs, k)
    decreases n
  {
    hide Inv, Step, PostedOnce, Broadcasting;
    if n == 0 {
      k := 0;
      BroadcastBegins(a, t, xs);
    } else {
      var r, u :| Within(n - 1, a, r, t) && Step(r, b, u);
      k := BroadcastRuns(n - 1, a, r, t, xs);
      WithinEnters(n - 1, a, r, t);
      k := BroadcastGoesOn(a, r, b, t, u, xs, k);
    }
  }

  lemma BroadcastBegins(a: State, t: nat, xs: seq<nat>)
    requires Inv(a, xs, 0) && t < |a.pc| && a.pc[t] == BStart
    ensures Broadcasting(a, a, t, xs, 0)
  {
  }

  lemma BroadcastGoesOn(a: State, r: State, b: State, t: nat, u: nat, xs: seq<nat>, k: nat) returns (k': nat)
    requires Broadcasting(a, r, t, xs, k) && r.cs == b.cs == To(t) && Step(r, b, u)
    ensures Broadcasting(a, b, t, xs, k')
  {
    k' := k;
    if u != t {
      if r.pc[t].BLeave? { OthersWait(r, b, t, u, [], 0); } else { OthersWait(r, b, t, u, xs, k); }
    } else if !r.pc[t].BLeave? {
      var xs';
      xs', k' := StepKeeps(r, b, t, xs, k);
      if r.pc[t].BClear? { k' := |xs|; }
      if r.pc[t].BTest? && r.pc[t].tmp.To? {
        assert xs[k..][0] == xs[k];
        assert xs[..k + 1] == xs[..k] + [xs[k]];
      }
    }
  }

  /** A broadcast that is about to leave its section has posted every thread that was listed when
      it entered, each of them once, and no other; whatever the threads it woke have done since. */
  lemma BroadcastPostsAll(n: nat, a: State, b: State, t: nat, xs: seq<nat>)
    requires Reachable(a) && t < |a.pc| && a.pc[t] == BStart && Chain(a.next, a.waiters, xs)
    requires Within(n, a, b, t) && t < |b.pc| && b.pc[t] == BLeave
    ensures PostedOnce(a, b, xs) && b.waiters == Null
  {
    var i: nat :| ReachesIn(i, a);
    var ys, k := ReachableKeeps(i, a);
    ChainUnique(a.next, a.waiters, xs, ys);
    assert OkThread(a, ys, k, t);
    WithinEnters(n, a, b, t);
    k := BroadcastRuns(n, a, b, t, xs);
    assert xs[..|xs|] == xs;
  }

  /** How far a signal that began with the list `xs` has come. */
  predicate Signalling(a: State, b: State, t: nat, xs: seq<nat>) {
    t < |b.pc| && |a.posts| == |b.posts| &&
    match b.pc[t]
    case STest => Inv(b, xs, 0) && b.posts == a.posts
    case SPost => xs != [] && Inv(b, xs, 0) && b.posts == a.posts
    case SPop => xs != [] && Inv(b, xs, 1) && PostedOnce(a, b, [xs[0]])
    case SLeave => if xs == [] then Inv(b, xs, 0) && b.posts == a.posts
                   else Inv(b, xs[1..], 0) && PostedOnce(a, b, [xs[0]])
    case _ => false
  }

  lemma SignalGoesOn(a: State, r: State, b: State, t: nat, u: nat, xs: seq<nat>)
    requires Signalling(a, r, t, xs) && r.cs == b.cs == To(t) && Step(r, b, u)
    ensures Signalling(a, b, t, xs)
  {
    if u != t {
      OthersWait(r, b, t, u, if r.pc[t].SLeave? && xs != [] then xs[1..] else xs, if r.pc[t].SPop? then 1 else 0);
    } else if !r.pc[t].SLeave? {
      var xs', k' := StepKeeps(r, b, t, xs, if r.pc[t].SPop? then 1 else 0);
    }
  }

  lemma {:induction false} SignalRuns(n: nat, a: State, b: State, t: nat, xs: seq<nat>)
    requires Inv(a, xs, 0) && t < |a.pc| && a.pc[t] == STest && Within(n, a, b, t)
    ensures Signalling(a, b, t, xs)
    decreases n
  {
    hide Inv, Step, PostedOnce;
    if n > 0 {
      hide Signalling;
      var r, u :| Within(n - 1, a, r, t) && Step(r, b, u);
      SignalRuns(n - 1, a, r, t, xs);
      WithinEnters(n - 1, a, r, t);
      SignalGoesOn(a, r, b, t, u, xs);
    }
  }

  /** A signal that is about to leave its section has posted, once, the thread that was enqueued
      last, and has taken it off the list; it has done nothing if there was none. */
  lemma SignalPostsOne(n: nat, a: State, b: State, t: nat, xs: seq<nat>)
    requires Reachable(a) && t < |a.pc| && a.pc[t] == STest && Chain(a.next, a.waiters, xs)
    requires Within(n, a, b, t) && t < |b.pc| && b.pc[t] == SLeave
    ensures PostedOnce(a, b, if xs == [] then [] else [xs[0]])
    ensures Chain(b.next, b.waiters, if xs == [] then [] else xs[1..])
  {
    var i: nat :| ReachesIn(i, a);
    var ys, k := ReachableKeeps(i, a);
    ChainUnique(a.next, a.waiters, xs, ys);
    assert OkThread(a, ys, k, t);
    WithinEnters(n, a, b, t);
    SignalRuns(n, a, b, t, xs);
  }
}
