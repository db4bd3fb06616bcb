/**
 * The page script's `debounce(func, wait)`: the returned wrapper clears the
 * closure's pending `timeout` and schedules a new one `wait` milliseconds
 * ahead, so only the last call of a burst reaches `func`.
 *
 * Time is a count of milliseconds; the browser's event loop is a `Tick` that
 * advances the clock by one and runs a timer whose moment has come.
 */
module Debounce {
  import opened Wrappers
  import opened Seqs

  /** A scheduled `setTimeout`: when it runs, and the context and arguments it will apply. */
  datatype Timer<A> = Timer(due: nat, args: A)

  /** `func` running at a moment with the arguments of the call that scheduled it. */
  datatype Firing<A> = Firing(at: nat, args: A)

  /** The closure's whole state: its delay, the clock, and `timeout`. */
  datatype Schedule<A> = Schedule(wait: nat, now: nat, pending: Option<Timer<A>>)

  /** A pending timer is strictly in the future and at most `wait` ahead. */
  predicate Valid<A>(s: Schedule<A>) {
    s.wait > 0 &&
    (s.pending.Some? ==> s.now < s.pending.value.due <= s.now + s.wait)
  }

  /** One call of the wrapper: `clearTimeout(timeout); timeout = setTimeout(..., wait)`. */
  function Invoked<A>(s: Schedule<A>, args: A): (r: Schedule<A>)
    ensures r.pending == Some(Timer(s.now + s.wait, args))
    ensures r.now == s.now && r.wait == s.wait
  {
    s.(pending := Some(Timer(s.now + s.wait, args)))
  }

  /** One millisecond passes; the pending timer runs if its moment is reached. */
  function Ticked<A>(s: Schedule<A>): (Schedule<A>, Option<A>) {
    var t := s.now + 1;
    if s.pending.Some? && s.pending.value.due <= t then
      (Schedule(s.wait, t, None), Some(s.pending.value.args))
    else
      (s.(now := t), None)
  }

  /** The run a tick recorded, if any, stamped with the tick's new moment. */
  function Fired<A>(step: (Schedule<A>, Option<A>)): seq<Firing<A>> {
    if step.1.Some? then [Firing(step.0.now, step.1.value)] else []
  }

  /** `k` milliseconds pass; every run of `func` is recorded with its moment. */
  function TicksFrom<A>(s: Schedule<A>, k: nat): (r: (Schedule<A>, seq<Firing<A>>))
    ensures r.0.wait == s.wait && r.0.now == s.now + k
    decreases k
  {
    if k == 0 then (s, [])
    else
      var step := Ticked(s);
      var rest := TicksFrom(step.0, k - 1);
      (rest.0, Fired(step) + rest.1)
  }

  /** A call of the wrapper followed by `gap` quiet milliseconds. */
  datatype Call<A> = Call(args: A, gap: nat)

  function Burst<A>(s: Schedule<A>, calls: seq<Call<A>>): (Schedule<A>, seq<Firing<A>>)
    decreases |calls|
  {
    if calls == [] then (s, [])
    else
      var first := TicksFrom(Invoked(s, calls[0].args), calls[0].gap);
      var rest := Burst(first.0, calls[1..]);
      (rest.0, first.1 + rest.1)
  }

  /** The milliseconds a burst spans. */
  function Elapsed<A>(calls: seq<Call<A>>): nat {
    if calls == [] then 0 else calls[0].gap + Elapsed(calls[1..])
  }

  // ---------------------------------------------------------------------------
  // Properties
  // ---------------------------------------------------------------------------

  /** A second call at the same moment replaces the first: only one timer is ever pending. */
  lemma CallForgetsPrevious<A>(s: Schedule<A>, a: A, b: A)
    ensures Invoked(Invoked(s, a), b) == Invoked(s, b)
  {
  }

  lemma InvokedValid<A>(s: Schedule<A>, args: A)
    requires s.wait > 0
    ensures Valid(Invoked(s, args))
  {
  }

  lemma TickedValid<A>(s: Schedule<A>)
    requires Valid(s)
    ensures Valid(Ticked(s).0)
  {
  }

  lemma {:induction false} TicksValid<A>(s: Schedule<A>, k: nat)
    requires Valid(s)
    ensures Valid(TicksFrom(s, k).0)
    decreases k
  {
    if k > 0 {
      TickedValid(s);
      TicksValid(Ticked(s).0, k - 1);
    }
  }

  /** A tick runs `func` exactly when the pending timer is due at the new moment, with that timer's arguments. */
  lemma TickFiresOnTime<A>(s: Schedule<A>, a: A)
    requires Valid(s)
    ensures Ticked(s).1 == Some(a) <==> s.pending == Some(Timer(s.now + 1, a))
    ensures Ticked(s).1.Some? ==> Ticked(s).0.pending.None?
  {
  }

  /** Without a pending timer nothing ever runs. */
  lemma {:induction false} IdleTicks<A>(s: Schedule<A>, k: nat)
    requires s.pending.None?
    ensures TicksFrom(s, k).0 == s.(now := s.now + k)
    ensures TicksFrom(s, k).1 == []
    decreases k
  {
    if k > 0 {
      IdleTicks(Ticked(s).0, k - 1);
      EmptyAppend(Fired(Ticked(s)), TicksFrom(Ticked(s).0, k - 1).1);
    }
  }

  /** Before its moment a pending timer just waits. */
  lemma {:induction false} QuietTicks<A>(s: Schedule<A>, k: nat)
    requires s.pending.Some? && s.now + k < s.pending.value.due
    ensures TicksFrom(s, k).0 == s.(now := s.now + k)
    ensures TicksFrom(s, k).1 == []
    decreases k
  {
    if k > 0 {
      QuietTicks(Ticked(s).0, k - 1);
      EmptyAppend(Fired(Ticked(s)), TicksFrom(Ticked(s).0, k - 1).1);
    }
  }

  /** At its moment a pending timer runs once, and nothing is pending after. */
  lemma {:induction false} DueTicks<A>(s: Schedule<A>, k: nat)
    requires s.pending.Some? && s.now < s.pending.value.due && s.now + k == s.pending.value.due
    ensures TicksFrom(s, k).0 == Schedule(s.wait, s.pending.value.due, None)
    ensures TicksFrom(s, k).1 == [Firing(s.pending.value.due, s.pending.value.args)]
    decreases k
  {
    var step := Ticked(s);
    if k == 1 {
      IdleTicks(step.0, 0);
      AppendEmpty(Fired(step), TicksFrom(step.0, 0).1);
    } else {
      DueTicks(step.0, k - 1);
      EmptyAppend(Fired(step), TicksFrom(step.0, k - 1).1);
    }
  }

  /**
   * Calls closer together than `wait`, the last followed by `wait` quiet
   * milliseconds, run `func` exactly once: `wait` after the last call, with
   * that call's arguments.
   */
  lemma {:induction false} BurstFiresOnce<A>(s: Schedule<A>, calls: seq<Call<A>>)
    requires s.wait > 0 && calls != []
    requires forall i :: 0 <= i < |calls| - 1 ==> calls[i].gap < s.wait
    requires calls[|calls| - 1].gap == s.wait
    ensures Burst(s, calls).0 == Schedule(s.wait, s.now + Elapsed(calls), None)
    ensures Burst(s, calls).1 == [Firing(s.now + Elapsed(calls), calls[|calls| - 1].args)]
    decreases |calls|
  {
    var s0 := Invoked(s, calls[0].args);
    var first := TicksFrom(s0, calls[0].gap);
    if |calls| == 1 {
      DueTicks(s0, s.wait);
      AppendEmpty(first.1, Burst(first.0, calls[1..]).1);
    } else {
      QuietTicks(s0, calls[0].gap);
      BurstFiresOnce(first.0, calls[1..]);
      EmptyAppend(first.1, Burst(first.0, calls[1..]).1);
    }
  }

  /**
   * The closure of one `debounce(func, wait)`: `timeout` is the pending field,
   * the wrapper is `Invoke`, and the event loop calls `Tick`.
   */
  class Debouncer<A> {
    const wait: nat
    var now: nat
    var pending: Option<Timer<A>>

    function Snapshot(): Schedule<A>
      reads this
    {
      Schedule(wait, now, pending)
    }

    /** `debounce(func, wait)` at moment `now`: `let timeout;` starts undefined. */
    constructor (wait: nat, now: nat)
      ensures Snapshot() == Schedule(wait, now, None)
    {
      this.wait := wait;
      this.now := now;
      pending := None;
    }

    /** The returned function, called with `args`. */
    method Invoke(args: A)
      modifies this
      ensures Snapshot() == Invoked(old(Snapshot()), args)
    {
      pending := None;                          // clearTimeout(timeout)
      pending := Some(Timer(now + wait, args)); // timeout = setTimeout(..., wait)
    }

    /** One millisecond of the event loop; `fired` holds the arguments `func` ran with, if it ran. */
    method Tick() returns (fired: Option<A>)
      modifies this
      ensures (Snapshot(), fired) == Ticked(old(Snapshot()))
    {
      now := now + 1;
      fired := None;
      if pending.Some? && pending.value.due <= now {
        fired := Some(pending.value.args);
        pending := None;
      }
    }
  }
}
