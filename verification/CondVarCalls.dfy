/** Whole calls of the condition variable's macros, from the first step to the return, while any other
    threads go on: a wait returns only when it has been posted, a signal and a broadcast only when they
    have done what they are for. */
module CondVarCalls {
  import opened CondVar

  lemma ReachesOn(r: State, b: State, u: nat)
    requires Reachable(r) && Step(r, b, u)
    ensures Reachable(b)
  {
    hide Step;
    var n: nat :| ReachesIn(n, r);
    assert ReachesIn(n + 1, b);
  }

  // ----- waits -----

  /** How many waits on its semaphore thread t has ended since a. */
  predicate WokenSince(a: State, r: State, t: nat)
    requires Shaped(a) && Shaped(r) && t < |a.pc| && t < |r.pc|
  {
    r.woken[t] == a.woken[t] + if r.pc[t].WRelock? || r.pc[t].Out? then 1 else 0
  }

  lemma WokenOn(a: State, r: State, b: State, t: nat, u: nat)
    requires Shaped(a) && Shaped(r) && t < |a.pc| && t < |r.pc| && Waiting(r.pc[t]) && Step(r, b, u) && WokenSince(a, r, t)
    ensures Shaped(b) && t < |b.pc| && WokenSince(a, b, t)
  {
    if u == t { OwnWaitStep(r, b, t); } else { OtherStep(r, b, t, u); }
    hide Step;
  }

  lemma {:induction false} WaitWakes(n: nat, a: State, b: State, t: nat)
    requires Reachable(a) && Shaped(a) && t < |a.pc| && a.pc[t] == WEnter && Waits(n, a, b, t)
    ensures Reachable(b) && Shaped(b) && t < |b.pc| && WokenSince(a, b, t)
    decreases n
  {
    hide Step, Reachable;
    if n > 0 {
      var r, u :| Waits(n - 1, a, r, t) && t < |r.pc| && Waiting(r.pc[t]) && Step(r, b, u);
      WaitWakes(n - 1, a, r, t);
      ReachesOn(r, b, u);
      hide WokenSince;
      WokenOn(a, r, b, t, u);
    }
  }

  /** No wait returns of itself: between its first step and its return its thread has been posted, exactly
      once, and has used that post up. */
  lemma WaitIsPosted(n: nat, a: State, b: State, t: nat)
    requires Reachable(a) && Shaped(a) && t < |a.pc| && a.pc[t] == WEnter && Waits(n, a, b, t) && t < |b.pc| && b.pc[t] == Out
    ensures Shaped(b) && b.posts[t] == a.posts[t] + 1 && b.woken[t] == a.woken[t] + 1 && b.mutex == To(t)
  {
    WaitWakes(n, a, b, t);
    WaitReturnsHolding(n, a, b, t);
    SemaphoreAtRest(a, t);
    SemaphoreAtRest(b, t);
  }

  /** Before and after a wait the semaphore is used up. */
  lemma SemaphoreAtRest(s: State, t: nat)
    requires Reachable(s) && Shaped(s) && t < |s.pc| && (s.pc[t] == WEnter || s.pc[t] == Out)
    ensures s.posts[t] == s.woken[t]
  {
    var n: nat :| ReachesIn(n, s);
    var xs, k := ReachableKeeps(n, s);
    assert OkThread(s, xs, k, t);
  }

  // ----- signals and broadcasts -----

  predicate InCall(p: Pc, signal: bool) {
    if signal then p.SEnter? || p.STest? || p.SPost? || p.SPop? || p.SLeave?
    else p.BEnter? || p.BStart? || p.BTest? || p.BNext? || p.BClear? || p.BLeave?
  }

  function FirstOf(signal: bool): Pc {
    if signal then SEnter else BEnter
  }

  /** The first step and the last one inside of the section. */
  function EntryOf(signal: bool): Pc {
    if signal then STest else BStart
  }

  function ExitOf(signal: bool): Pc {
    if signal then SLeave else BLeave
  }

  /** From a to b in n steps of any threads; thread t is in its call all the time, but possibly at b. */
  ghost predicate During(n: nat, a: State, b: State, t: nat, signal: bool) {
    if n == 0 then a == b
    else exists r, u :: During(n - 1, a, r, t, signal) && t < |r.pc| && InCall(r.pc[t], signal) && Step(r, b, u)
  }

  /** On the way from a thread t has entered the section at c, and has been there since. */
  ghost predicate EnteredAt(i: nat, a: State, c: State, r: State, t: nat, signal: bool) {
    && Reachable(c) && t < |c.pc| && c.pc[t] == EntryOf(signal) && Within(i, c, r, t)
    && exists n: nat :: During(n, a, c, t, signal)
  }

  /** The call that began at a has been in its section from c to d, and has returned from there to b. */
  ghost predicate Completed(i: nat, a: State, c: State, d: State, b: State, t: nat, signal: bool) {
    EnteredAt(i, a, c, d, t, signal) && t < |d.pc| && d.pc[t] == ExitOf(signal) && Step(d, b, t)
  }

  /** How far the call has come. */
  ghost predicate CallIs(a: State, b: State, t: nat, signal: bool) {
    t < |b.pc| &&
    (|| b.pc[t] == FirstOf(signal)
     || (InCall(b.pc[t], signal) && b.pc[t] != FirstOf(signal) && exists i: nat, c :: EnteredAt(i, a, c, b, t, signal))
     || (b.pc[t] == Out && exists i: nat, c, d :: Completed(i, a, c, d, b, t, signal)))
  }

  /** The places that one step of a thread in a call leads to. */
  lemma CallStep(r: State, b: State, t: nat, signal: bool)
    requires t < |r.pc| && InCall(r.pc[t], signal) && Step(r, b, t)
    ensures t < |b.pc|
    ensures r.pc[t] == FirstOf(signal) ==> b.pc[t] == EntryOf(signal)
    ensures r.pc[t] == ExitOf(signal) ==> b.pc[t] == Out
    ensures r.pc[t] != ExitOf(signal) ==> InCall(b.pc[t], signal) && b.pc[t] != FirstOf(signal)
  {
  }

  lemma InSection(s: State, t: nat, signal: bool)
    requires Reachable(s) && t < |s.pc| && InCall(s.pc[t], signal) && s.pc[t] != FirstOf(signal)
    ensures s.cs == To(t)
  {
    var n: nat :| ReachesIn(n, s);
    var xs, k := ReachableKeeps(n, s);
    assert OkThread(s, xs, k, t);
  }

  lemma CallGoesOn(n: nat, a: State, r: State, b: State, t: nat, u: nat, signal: bool)
    requires Reachable(r) && CallIs(a, r, t, signal) && InCall(r.pc[t], signal) && Step(r, b, u) && During(n, a, b, t, signal)
    ensures Reachable(b) && CallIs(a, b, t, signal)
  {
    hide Step, Reachable, During;
    ReachesOn(r, b, u);
    if u == t { CallStep(r, b, t, signal); } else { OtherStep(r, b, t, u); }
    if r.pc[t] == FirstOf(signal) {
      if u == t {
        InSection(b, t, signal);
        assert EnteredAt(0, a, b, b, t, signal);
      }
    } else {
      var i: nat, c :| EnteredAt(i, a, c, r, t, signal);
      if u == t && r.pc[t] == ExitOf(signal) {
        assert Completed(i, a, c, r, b, t, signal);
      } else {
        InSection(b, t, signal);
        assert Within(i + 1, c, b, t);
        assert EnteredAt(i + 1, a, c, b, t, signal);
      }
    }
  }

  lemma {:induction false} CallComes(n: nat, a: State, b: State, t: nat, signal: bool)
    requires Reachable(a) && t < |a.pc| && a.pc[t] == FirstOf(signal) && During(n, a, b, t, signal)
    ensures Reachable(b) && CallIs(a, b, t, signal)
    decreases n
  {
    hide Step, Reachable, CallIs;
    if n > 0 {
      var r, u :| During(n - 1, a, r, t, signal) && t < |r.pc| && InCall(r.pc[t], signal) && Step(r, b, u);
      CallComes(n - 1, a, r, t, signal);
      CallGoesOn(n, a, r, b, t, u, signal);
    } else {
      FirstIs(a, t, signal);
    }
  }

  lemma FirstIs(a: State, t: nat, signal: bool)
    requires t < |a.pc| && a.pc[t] == FirstOf(signal)
    ensures CallIs(a, a, t, signal)
  {
  }

  /** A signal that has returned has been in its section, from c to d: there the thread that was enqueued
      last has been posted once, and taken off the list, or the list was empty. */
  lemma SignalDoesIt(n: nat, a: State, b: State, t: nat) returns (i: nat, c: State, d: State, xs: seq<nat>)
    requires Reachable(a) && t < |a.pc| && a.pc[t] == SEnter && During(n, a, b, t, true) && t < |b.pc| && b.pc[t] == Out
    ensures Completed(i, a, c, d, b, t, true)
    ensures Chain(c.next, c.waiters, xs) && PostedOnce(c, d, if xs == [] then [] else [xs[0]])
    ensures Chain(d.next, d.waiters, if xs == [] then [] else xs[1..])
  {
    hide Step, During;
    CallComes(n, a, b, t, true);
    i, c, d :| Completed(i, a, c, d, b, t, true);
    AlwaysAList(c);
    xs :| Chain(c.next, c.waiters, xs) && Distinct(xs);
    SignalPostsOne(i, c, d, t, xs);
  }

  /** A broadcast that has returned has been in its section, from c to d: there every thread that was
      listed has been posted once, and the list has been emptied. */
  lemma BroadcastDoesIt(n: nat, a: State, b: State, t: nat) returns (i: nat, c: State, d: State, xs: seq<nat>)
    requires Reachable(a) && t < |a.pc| && a.pc[t] == BEnter && During(n, a, b, t, false) && t < |b.pc| && b.pc[t] == Out
    ensures Completed(i, a, c, d, b, t, false)
    ensures Chain(c.next, c.waiters, xs) && PostedOnce(c, d, xs) && d.waiters == Null
  {
    hide Step, During;
    CallComes(n, a, b, t, false);
    i, c, d :| Completed(i, a, c, d, b, t, false);
    AlwaysAList(c);
    xs :| Chain(c.next, c.waiters, xs) && Distinct(xs);
    BroadcastPostsAll(i, c, d, t, xs);
  }
}
