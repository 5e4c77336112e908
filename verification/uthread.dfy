/** User-level threads and their round-robin scheduler. */
module Uthread {
  const MAX_THREAD: nat := 4
  const STACK_SIZE: nat := 8192

  datatype State = FREE | RUNNING | RUNNABLE

  /** The registers thread_switch saves and loads: return address, stack pointer, s0 to s11. */
  datatype Context = Context(ra: nat, sp: nat, s: seq<nat>)

  /** The thread the scheduler picks: the first runnable one after cur, cur itself last; none if
      nobody is runnable. */
  predicate Picks(states: seq<State>, cur: nat, next: nat)
    requires |states| == MAX_THREAD && cur < MAX_THREAD
  {
    next < MAX_THREAD && states[next].RUNNABLE? && forall k: nat | k < MAX_THREAD
    && Distance(cur, k) < Distance(cur, next) :: !states[k].RUNNABLE?
  }

  /** Steps from cur round to k, 1 to MAX_THREAD. */
  function Distance(cur: nat, k: nat): (d: nat)
    requires cur < MAX_THREAD && k < MAX_THREAD
    ensures 1 <= d <= MAX_THREAD && (d == MAX_THREAD <==> k == cur)
  {
    if k > cur then k - cur else k + MAX_THREAD - cur
  }

  class Threads {
    var state: array<State>
    var context: array<Context>
    const stackTop: seq<nat>       // t->stack + STACK_SIZE of each thread
    var current: nat
    var cpu: Context               // the machine's registers
    ghost var left: seq<Context>   // each thread's registers when it last left the CPU, or its first ones

    ghost predicate Valid()
      reads this, state, context
    {
      && state.Length == context.Length == |stackTop| == |left| == MAX_THREAD && current < MAX_THREAD
      && (forall i | 0 <= i < MAX_THREAD && state[i].RUNNING? :: i == current)
      && (forall i | 0 <= i < MAX_THREAD && i != current :: context[i] == left[i])
    }

    /** thread_init: main is thread 0. */
    constructor (stackTop: seq<nat>, cpu: Context)
      requires |stackTop| == MAX_THREAD
      ensures Valid() && fresh(state) && fresh(context) && current == 0 && state[0] == RUNNING && this.cpu == cpu
      ensures forall i | 1 <= i < MAX_THREAD :: state[i] == FREE
    {
      this.stackTop, this.cpu, this.current := stackTop, cpu, 0;
      var none := Context(0, 0, []);
      this.state := new State[MAX_THREAD](_ => FREE);
      this.context := new Context[MAX_THREAD](_ => none);
      this.left := seq(MAX_THREAD, _ => none);
      new;
      state[0] := RUNNING;
    }

    /** thread_switch */
    method Switch(old_: nat, new_: nat)
      requires old_ < context.Length && new_ < context.Length && old_ != new_
      modifies context, this`cpu
      ensures cpu == old(context[new_]) && context[..] == old(context[..])[old_ := old(cpu)]
    {
      context[old_] := cpu;
      cpu := context[new_];
    }

    /** Gives the CPU to the next runnable thread; not ok if there is none and the program exits. */
    method Schedule() returns (ok: bool)
      requires Valid() && !state[current].RUNNING?
      modifies this`current, this`cpu, this`left, state, context
      ensures Valid() && (ok <==> exists k :: 0 <= k < MAX_THREAD && old(state[..])[k].RUNNABLE?)
      ensures !ok ==>
                state[..] == old(state[..]) && context[..] == old(context[..]) && current == old(current)
                && cpu == old(cpu)
      ensures ok ==> Picks(old(state[..]), old(current), current)
      ensures ok && current != old(current) ==>
                && state[..] == old(state[..])[current := RUNNING]
                && context[..] == old(context[..])[old(current) := old(cpu)]
                && left == old(left)[old(current) := old(cpu)]
                && cpu == old(left)[current]
      ensures ok && current == old(current) ==>
                state[..] == old(state[..]) && context[..] == old(context[..]) && cpu == old(cpu) && left == old(left)
    {
      var t := current + 1;
      var found, next := false, 0;
      var i := 0;
      while i < MAX_THREAD
        invariant 0 <= i <= MAX_THREAD && 0 <= t <= MAX_THREAD
        invariant i < MAX_THREAD ==> Distance(current, if t == MAX_THREAD then 0 else t) == i + 1
        invariant forall k: nat | k < MAX_THREAD && Distance(current, k) <= i :: !state[k].RUNNABLE?
        invariant !found
      {
        if t >= MAX_THREAD {
          t := 0;
        }
        if state[t] == RUNNABLE {
          found, next := true, t;
          break;
        }
        t := t + 1;
        i := i + 1;
      }
      if !found {
        return false;
      }
      if current != next {
        state[next] := RUNNING;
        var prev := current;
        current := next;
        left := left[prev := cpu];
        Switch(prev, next);
      }
      assert old(state[..])[next].RUNNABLE?;
      return true;
    }

    /** Gives up the CPU; a thread that is alone runs on, still marked runnable. */
    method Yield() returns (ok: bool)
      requires Valid()
      modifies this`current, this`cpu, this`left, state, context
      ensures Valid() && ok && Picks(old(state[..])[old(current) := RUNNABLE], old(current), current)
      ensures if current != old(current)
              then && state[..] == old(state[..])[old(current) := RUNNABLE][current := RUNNING]
                   && cpu == old(left)[current]
                   && left == old(left)[old(current) := old(cpu)]
                   && forall i | 0 <= i < MAX_THREAD && i != old(current) :: context[i] == old(context[i])
              else && state[..] == old(state[..])[current := RUNNABLE]
                   && cpu == old(cpu) && context[..] == old(context[..]) && left == old(left)
    {
      state[current] := RUNNABLE;
      assert state[..][current].RUNNABLE?;
      ok := Schedule();
    }

    /** Leaves for good; the program exits if nobody else is runnable. */
    method Exit() returns (ok: bool)
      requires Valid()
      modifies this`current, this`cpu, this`left, state, context
      ensures Valid() && (ok <==> exists k :: 0 <= k < MAX_THREAD && k != old(current) && old(state[..])[k].RUNNABLE?)
      ensures ok ==> Picks(old(state[..])[old(current) := FREE], old(current), current) && current != old(current)
      ensures ok ==> && state[..] == old(state[..])[old(current) := FREE][current := RUNNING]
                     && cpu == old(left)[current]
                     && left == old(left)[old(current) := old(cpu)]
                     && forall i | 0 <= i < MAX_THREAD && i != old(current) :: context[i] == old(context[i])
    {
      state[current] := FREE;
      ghost var cur, states := current, state[..];
      assert states == old(state[..])[cur := FREE] && !states[cur].RUNNABLE?;
      assert forall k | 0 <= k < MAX_THREAD && k != cur :: states[k] == old(state[..])[k];
      ok := Schedule();
      assert ok ==> Picks(states, cur, current) && current != cur;
    }

    /** A new thread that will start at func on its own stack.  If no slot is free, and only then, the code
        goes on to write behind its table: not ok. */
    method Create(func: nat) returns (ok: bool)
      requires Valid() && state[current] != FREE
      modifies this`left, state, context
      ensures Valid() && (ok <==> FREE in old(state[..]))
      ensures ok ==>
                exists t: nat | t < MAX_THREAD && old(state[t]) == FREE && FREE !in old(state[..t]) ::
                  Started(old(state[..]), old(context[..]), old(left), t, func)
      ensures !ok ==> state[..] == old(state[..]) && context[..] == old(context[..]) && left == old(left)
    {
      var t := 0;
      while t < MAX_THREAD && state[t] != FREE
        invariant 0 <= t <= MAX_THREAD && forall i | 0 <= i < t :: state[i] != FREE
      {
        t := t + 1;
      }
      if t == MAX_THREAD {
        return false;
      }
      ghost var states, contexts, was := state[..], context[..], left;
      assert states[t] == FREE && FREE !in states[..t];
      state[t] := RUNNABLE;
      context[t] := context[t].(ra := func, sp := stackTop[t]);
      left := left[t := context[t]];
      assert Started(states, contexts, was, t, func);
      return true;
    }

    /** Slot t, and nothing else, has become a runnable thread. */
    ghost predicate Started(states: seq<State>, contexts: seq<Context>, was: seq<Context>, t: nat, func: nat)
      requires |states| == |contexts| == |was| == |stackTop| == MAX_THREAD && t < MAX_THREAD
      reads this, state, context
    {
      var c := contexts[t].(ra := func, sp := stackTop[t]);
      state[..] == states[t := RUNNABLE] && context[..] == contexts[t := c] && left == was[t := c]
    }
  }

  /** Every switch brings a waiting thread's turn closer. */
  lemma Closer(states: seq<State>, cur: nat, next: nat, k: nat)
    requires |states| == MAX_THREAD && cur < MAX_THREAD && k < MAX_THREAD && k != cur && states[k].RUNNABLE?
    requires Picks(states, cur, next)
    ensures next == k || Distance(next, k) < Distance(cur, k)
  {
  }

  /** curs is who runs, one scheduling after the other; states is what each scheduling saw. */
  ghost predicate Schedules(states: seq<seq<State>>, curs: seq<nat>) {
    |curs| == |states| + 1 && forall i | 0 <= i < |states| ::
      |states[i]| == MAX_THREAD && curs[i] < MAX_THREAD && Picks(states[i], curs[i], curs[i + 1])
  }

  /** Bounded waiting: a thread that stays runnable runs within MAX_THREAD - 1 schedulings, whatever
      the other threads do. */
  lemma {:induction false} BoundedWaiting(states: seq<seq<State>>, curs: seq<nat>, k: nat)
    requires Schedules(states, curs) && k < MAX_THREAD && curs[0] < MAX_THREAD && k != curs[0]
    requires |states| >= Distance(curs[0], k)
    requires forall i | 0 <= i < |states| :: states[i][k].RUNNABLE?
    ensures exists j :: 1 <= j <= Distance(curs[0], k) <= MAX_THREAD - 1 && curs[j] == k
    decreases |states|
  {
    Closer(states[0], curs[0], curs[1], k);
    if curs[1] != k {
      BoundedWaiting(states[1..], curs[1..], k);
      var j :| 1 <= j <= Distance(curs[1..][0], k) && curs[1..][j] == k;
      assert curs[j + 1] == k;
    }
  }
}
