/** The server's blocking queue as a monitor that threads share: who sleeps, who is woken. */
module Monitors {
  import opened Wire

  /** Where a consumer is: not in pop, asleep on the condition variable, or woken and about to
      look at the queue again. */
  datatype Phase = Outside | Waiting | Notified

  datatype Monitor<T> = Monitor(queue: seq<T>, phases: seq<Phase>, pushed: seq<T>, popped: seq<T>)

  /** A producer's critical section, `woken` being the thread the system wakes, or a
      consumer's: on entering pop, on being woken, or on waking up spuriously. */
  datatype Action<T> = Push(elem: T, woken: nat) | Look(consumer: nat)

  predicate Asleep<T>(m: Monitor<T>, c: nat) {
    c < |m.phases| && m.phases[c] == Waiting
  }

  function SomeWaiting(phases: seq<Phase>, n: nat): (c: Option<nat>)
    requires n <= |phases|
    ensures c == None ==> forall k :: 0 <= k < n ==> phases[k] != Waiting
    ensures c != None ==> c.value < n && phases[c.value] == Waiting
  {
    if n == 0 then None
    else if phases[n - 1] == Waiting then Some(n - 1)
    else SomeWaiting(phases, n - 1)
  }

  /** notify_one wakes one of the waiting threads, if there is one. */
  function NotifyOne(phases: seq<Phase>, woken: nat): (r: seq<Phase>)
    ensures |r| == |phases|
  {
    var c := if woken < |phases| && phases[woken] == Waiting then Some(woken) else SomeWaiting(phases, |phases|);
    if c == None then phases else phases[c.value := Notified]
  }

  function Step<T>(m: Monitor<T>, a: Action<T>): Monitor<T> {
    match a
    case Push(elem, woken) =>
      var queue := m.queue + [elem];
      m.(queue := queue, pushed := m.pushed + [elem],
         phases := if |queue| == 1 then NotifyOne(m.phases, woken) else m.phases)
    case Look(c) =>
      if c >= |m.phases| then m
      else if m.queue == [] then m.(phases := m.phases[c := Waiting])
      else m.(queue := m.queue[1..], popped := m.popped + [m.queue[0]], phases := m.phases[c := Outside])
  }

  function Run<T>(m: Monitor<T>, actions: seq<Action<T>>): Monitor<T>
    decreases |actions|
  {
    if actions == [] then m else Run(Step(m, actions[0]), actions[1..])
  }

  function Start<T>(consumers: nat): Monitor<T> {
    Monitor([], seq(consumers, _ => Outside), [], [])
  }

  /** Something is in the queue, somebody sleeps, and nobody is on the way to look. */
  ghost predicate LostWakeup<T>(m: Monitor<T>) {
    && m.queue != []
    && (exists c: nat :: Asleep(m, c))
    && (forall c :: 0 <= c < |m.phases| ==> m.phases[c] != Notified)
  }

  /** Every run conserves elements and their order, with any number of threads. */
  lemma {:induction false} Conservation<T>(m: Monitor<T>, actions: seq<Action<T>>)
    requires m.pushed == m.popped + m.queue
    ensures Run(m, actions).pushed == Run(m, actions).popped + Run(m, actions).queue
    decreases |actions|
  {
    if actions != [] {
      var m' := Step(m, actions[0]);
      match actions[0]
      case Push(elem, _) =>
        Associative(m.popped, m.queue, [elem]);
        Conservation(m', actions[1..]);
      case Look(c) =>
        if c < |m.phases| && m.queue != [] {
          Associative(m.popped, [m.queue[0]], m.queue[1..]);
          assert [m.queue[0]] + m.queue[1..] == m.queue;
        }
        Conservation(m', actions[1..]);
    }
  }

  /** With one consumer: whenever it sleeps without having been notified, the queue is empty. */
  lemma {:induction false} SingleConsumer<T>(m: Monitor<T>, actions: seq<Action<T>>)
    requires |m.phases| <= 1 && (Asleep(m, 0) ==> m.queue == [])
    ensures var m' := Run(m, actions); |m'.phases| <= 1 && (Asleep(m', 0) ==> m'.queue == [])
    decreases |actions|
  {
    if actions != [] {
      SingleConsumer(Step(m, actions[0]), actions[1..]);
    }
  }

  /** Two consumers sleep; two elements arrive before the first looks; it takes one. */
  function LosingRun<T>(x: T): seq<Action<T>> {
    [Look(0), Look(1), Push(x, 0), Push(x, 0), Look(0)]
  }

  lemma RunOfCons<T>(m: Monitor<T>, a: Action<T>, actions: seq<Action<T>>)
    ensures Run(m, [a] + actions) == Run(Step(m, a), actions)
  {
    assert ([a] + actions)[1..] == actions;
  }

  lemma LosingRunLoses<T>(consumers: nat, x: T)
    requires consumers >= 2
    ensures LostWakeup(Run(Start(consumers), LosingRun(x)))
  {
    var m0: Monitor<T> := Start(consumers);
    var m1 := Step(m0, Look(0));
    var m2 := Step(m1, Look(1));
    var m3 := Step(m2, Push(x, 0));
    var m4 := Step(m3, Push(x, 0));
    var m5 := Step(m4, Look(0));
    RunOfCons(m0, Look(0), [Look(1), Push(x, 0), Push(x, 0), Look(0)]);
    RunOfCons(m1, Look(1), [Push(x, 0), Push(x, 0), Look(0)]);
    RunOfCons(m2, Push(x, 0), [Push(x, 0), Look(0)]);
    RunOfCons(m3, Push(x, 0), [Look(0)]);
    RunOfCons(m4, Look(0), []);
    assert LosingRun(x) == [Look(0)] + [Look(1), Push(x, 0), Push(x, 0), Look(0)];
    assert m2.phases == m0.phases[0 := Waiting][1 := Waiting];
    assert m5.phases == m2.phases[0 := Outside] && m5.queue == [x];
    assert Asleep(m5, 1);
  }

  ghost predicate Loses<T>(consumers: nat, actions: seq<Action<T>>) {
    LostWakeup(Run(Start(consumers), actions))
  }

  /** No run loses a wake-up exactly when there is at most one consumer, as for every queue of
      the server; notifying only when the size becomes 1 does not suffice for two. */
  lemma NoLostWakeupIff<T(!new)>(consumers: nat, x: T)
    ensures (forall actions: seq<Action<T>> :: !Loses(consumers, actions)) <==> consumers <= 1
  {
    if consumers <= 1 {
      forall actions: seq<Action<T>>
        ensures !Loses(consumers, actions)
      {
        SingleConsumer(Start(consumers), actions);
      }
    } else {
      LosingRunLoses(consumers, x);
      assert Loses(consumers, LosingRun(x));
    }
  }
}
