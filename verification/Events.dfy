/** The event loop (os.cpp, queue.c). */
module Events {
  // A queue of event names and a stack of their parameters, kept in step.

  import opened Basics

  // ----- the linked queue -----

  class QueueNode<T> {
    var data: T
    var next: QueueNode?<T>

    constructor (data: T)
      ensures this.data == data && next == null
    {
      this.data, next := data, null;
    }
  }

  class LinkedQueue<T> {
    var front: QueueNode?<T>
    var back: QueueNode?<T>
    ghost var spine: seq<QueueNode<T>>    // the nodes from front to back
    ghost var contents: seq<T>
    ghost var repr: set<object>

    ghost predicate Valid()
      reads this, repr
    {
      && (forall i :: 0 <= i < |spine| ==> spine[i] in repr)
      && |contents| == |spine|
      && (forall i, j :: 0 <= i < j < |spine| ==> spine[i] != spine[j])
      && (forall i :: 0 <= i < |spine| ==> spine[i].data == contents[i])
      && (forall i :: 0 <= i < |spine| - 1 ==> spine[i].next == spine[i + 1])
      && (if spine == [] then front == null && back == null
          else front == spine[0] && back == spine[|spine| - 1] && spine[|spine| - 1].next == null)
    }

    constructor ()
      ensures Valid() && contents == [] && repr == {}
    {
      front, back, spine, contents, repr := null, null, [], [], {};
    }

    method Empty() returns (b: bool)
      requires Valid()
      ensures b <==> contents == []
    {
      return back == null;
    }

    method Size() returns (n: nat)
      requires Valid()
      ensures n == |contents|
    {
      n := 0;
      var current := front;
      while current != null
        invariant n <= |spine| && current == if n < |spine| then spine[n] else null
        decreases |spine| - n
      {
        current := current.next;
        n := n + 1;
      }
    }

    /** `queue_front`; null for an empty queue. */
    method Front() returns (r: Option<T>)
      requires Valid()
      ensures r == if contents == [] then None else Some(contents[0])
    {
      if front == null {
        return None;
      }
      return Some(front.data);
    }

    /** `queue_back`. */
    method Back() returns (r: Option<T>)
      requires Valid()
      ensures r == if contents == [] then None else Some(contents[|contents| - 1])
    {
      if back == null {
        return None;
      }
      return Some(back.data);
    }

    method Push(val: T)
      requires Valid()
      modifies this, repr
      ensures Valid() && contents == old(contents) + [val] && fresh(repr - old(repr))
    {
      var p := new QueueNode<T>(val);
      if back != null && front != null {
        back.next := p;
      }
      back := p;
      if front == null {
        front := p;
      }
      spine, contents, repr := spine + [p], contents + [val], repr + {p};
    }

    method Pop()
      requires Valid()
      modifies this
      ensures Valid() && contents == if old(contents) == [] then [] else old(contents)[1..]
      ensures repr == old(repr)
    {
      if front == null {
        return;
      }
      front := front.next;
      if front == null {
        back := null;
      }
      spine, contents := spine[1..], contents[1..];
    }
  }

  // ----- the event loop -----

  datatype Arg = Number(n: int) | Bool(b: bool) | Str(s: string)

  /** An event with its own arguments. */
  datatype Event = Event(name: string, args: seq<Arg>)

  /** What happens while the loop waits: a key code (zero if there is none), the character that it
      stands for, and timers that have fired. */
  datatype Arrival = Arrival(code: nat, char': string, timers: seq<int>)

  /** `ps2tocc`. */
  function Ps2ToCc(code: nat): nat {
    if code / 256 % 256 == 0xE0 then code % 128 + 128
    else if code / 65536 % 256 == 0xE1 && code / 256 % 128 == 0x1D && code % 128 == 0x45 then 197
    else code % 128
  }

  function TimerEvents(ids: seq<int>): seq<Event> {
    if ids == [] then [] else [Event("timer", [Number(ids[0])])] + TimerEvents(ids[1..])
  }

  function KeyEvents(a: Arrival): seq<Event> {
    if a.code == 0 then []
    else [Event(if a.code / 128 % 2 == 1 then "key_up" else "key", [Number(Ps2ToCc(a.code)), Bool(false)])] +
         if a.char' == "" then [] else [Event("char", [Str(a.char')])]
  }

  /** The events that arrivals come to, in order. */
  function Generated(arrivals: seq<Arrival>): seq<Event> {
    if arrivals == [] then []
    else Generated(arrivals[..|arrivals| - 1]) + (KeyEvents(arrivals[|arrivals| - 1]) + TimerEvents(arrivals[|arrivals| - 1].timers))
  }

  /** Names and parameters that belong together. */
  function Zip(names: seq<string>, params: seq<seq<Arg>>): (es: seq<Event>)
    requires |names| == |params|
    ensures |es| == |names| && forall i :: 0 <= i < |es| ==> es[i] == Event(names[i], params[i])
  {
    seq(|names|, i requires 0 <= i < |names| => Event(names[i], params[i]))
  }

  lemma ZipPush(names: seq<string>, params: seq<seq<Arg>>, e: Event)
    requires |names| == |params|
    ensures Zip(names + [e.name], params + [e.args]) == Zip(names, params) + [e]
  {
  }

  /** Timers that fired before the loop waits are there at the first arrival. */
  function WithTimers(ids: seq<int>, arrivals: seq<Arrival>): (as': seq<Arrival>)
    ensures |as'| == |arrivals|
  {
    if arrivals == [] then [] else arrivals[0 := arrivals[0].(timers := ids + arrivals[0].timers)]
  }

  class EventLoop {
    const eventQueue: LinkedQueue<string>
    const timerQueue: LinkedQueue<int>
    var paramQueue: seq<seq<Arg>>    // a stack of threads with the arguments, the next one at the bottom

    constructor ()
      ensures InStep() && Pending() == [] && Timers() == []
      ensures fresh(eventQueue) && fresh(timerQueue) && eventQueue.repr == {} && timerQueue.repr == {}
    {
      eventQueue := new LinkedQueue<string>();
      timerQueue := new LinkedQueue<int>();
      paramQueue := [];
    }

    /** Names and parameters are as many as each other. */
    ghost predicate InStep()
      reads this, eventQueue, eventQueue.repr, timerQueue, timerQueue.repr
    {
      && eventQueue.Valid() && timerQueue.Valid()
      && eventQueue.repr !! timerQueue.repr && {this, eventQueue, timerQueue} !! eventQueue.repr + timerQueue.repr
      && {this, eventQueue} !! {timerQueue}
      && |eventQueue.contents| == |paramQueue|
    }

    /** The events that wait, each with its own arguments. */
    ghost function Pending(): seq<Event>
      requires InStep()
      reads this, eventQueue, eventQueue.repr, timerQueue, timerQueue.repr
    {
      Zip(eventQueue.contents, paramQueue)
    }

    /** The timers that fired and are not events yet. */
    ghost function Timers(): seq<int>
      reads timerQueue
    {
      timerQueue.contents
    }

    twostate predicate OnlyNewNodes()
      reads eventQueue, timerQueue
    {
      fresh(eventQueue.repr - old(eventQueue.repr)) && fresh(timerQueue.repr - old(timerQueue.repr))
    }

    method PushEvent(name: string, args: seq<Arg>)
      requires InStep()
      modifies `paramQueue, eventQueue, eventQueue.repr
      ensures InStep() && OnlyNewNodes() && Pending() == old(Pending()) + [Event(name, args)]
    {
      hide LinkedQueue.Valid;
      ZipPush(eventQueue.contents, paramQueue, Event(name, args));
      paramQueue := paramQueue + [args];
      eventQueue.Push(name);
    }

    /** `os_queueEvent`. */
    method QueueEvent(name: string, args: seq<Arg>)
      requires InStep()
      modifies `paramQueue, eventQueue, eventQueue.repr
      ensures InStep() && OnlyNewNodes() && Pending() == old(Pending()) + [Event(name, args)]
    {
      PushEvent(name, args);
    }

    /** `timerEvent`. */
    method TimerEvent(id: int)
      requires InStep()
      modifies timerQueue, timerQueue.repr
      ensures InStep() && OnlyNewNodes() && Timers() == old(Timers()) + [id]
      ensures Pending() == old(Pending())
    {
      hide LinkedQueue.Valid;
      timerQueue.Push(id);
    }

    /** The timers of an arrival fire while the loop waits. */
    method FireTimers(ids: seq<int>)
      requires InStep()
      modifies timerQueue, timerQueue.repr
      ensures InStep() && OnlyNewNodes() && Timers() == old(Timers()) + ids && Pending() == old(Pending())
    {
      hide LinkedQueue.Valid;
      for i := 0 to |ids|
        invariant InStep() && OnlyNewNodes() && Timers() == old(Timers()) + ids[..i] && Pending() == old(Pending())
      {
        TimerEvent(ids[i]);
      }
    }

    /** Turn what has arrived into events: one turn of the inner loop of `getNextEvent`. */
    method Receive(a: Arrival)
      requires InStep()
      modifies `paramQueue, eventQueue, eventQueue.repr, timerQueue, timerQueue.repr
      ensures InStep() && OnlyNewNodes() && Timers() == []
      ensures Pending() == old(Pending()) + (KeyEvents(a) + TimerEvents(old(Timers()) + a.timers))
    {
      hide LinkedQueue.Valid;
      ghost var p, t := Pending(), Timers();
      FireTimers(a.timers);
      if a.code != 0 {
        PushEvent(if a.code / 128 % 2 == 1 then "key_up" else "key", [Number(Ps2ToCc(a.code)), Bool(false)]);
        if a.char' != "" {
          PushEvent("char", [Str(a.char')]);
        }
      }
      assert Pending() == p + KeyEvents(a);
      FlushTimers();
      Assoc(p, KeyEvents(a), TimerEvents(t + a.timers));
    }

    method FlushTimers()
      requires InStep()
      modifies `paramQueue, eventQueue, eventQueue.repr, timerQueue, timerQueue.repr
      ensures InStep() && OnlyNewNodes() && Timers() == [] && Pending() == old(Pending()) + TimerEvents(old(Timers()))
    {
      hide LinkedQueue.Valid;
      ghost var all := Pending() + TimerEvents(Timers());
      while true
        invariant InStep() && OnlyNewNodes() && Pending() + TimerEvents(Timers()) == all
        decreases |Timers()|
      {
        var none := timerQueue.Empty();
        if none {
          break;
        }
        ghost var p, t := Pending(), Timers();
        var id := timerQueue.Front();
        PushEvent("timer", [Number(id.v)]);
        timerQueue.Pop();
        Assoc(p, [Event("timer", [Number(t[0])])], TimerEvents(t[1..]));
      }
    }

    /** The first event leaves both queues. */
    method TakeEvent() returns (e: Event)
      requires InStep() && Pending() != []
      modifies `paramQueue, eventQueue
      ensures InStep() && OnlyNewNodes() && Timers() == old(Timers()) && old(Pending()) == [e] + Pending()
    {
      hide LinkedQueue.Valid;
      var ev := eventQueue.Front();
      e := Event(ev.v, paramQueue[0]);
      eventQueue.Pop();
      paramQueue := paramQueue[1..];
    }

    /** `getNextEvent`, when the stack has room: deliver the first event that passes the filter, with
        its own arguments; the events before it are dropped, those after it stay. If nothing more
        arrives the loop goes on waiting, and the result is `None`. */
    method GetNextEvent(filter: string, arrivals: seq<Arrival>) returns (r: Option<Event>, ghost k: nat, ghost dropped: seq<Event>)
      requires InStep()
      modifies `paramQueue, eventQueue, eventQueue.repr, timerQueue, timerQueue.repr
      ensures InStep() && OnlyNewNodes() && k <= |arrivals| && Timers() == if k == 0 then old(Timers()) else []
      ensures forall e :: e in dropped ==> filter != "" && e.name != filter
      ensures var incoming := Generated(WithTimers(old(Timers()), arrivals)[..k]);
              match r
              case None => k == |arrivals| && old(Pending()) + incoming == dropped && Pending() == []
              case Some(e) => (filter == "" || e.name == filter) && old(Pending()) + incoming == dropped + [e] + Pending()
    {
      hide LinkedQueue.Valid;
      hide Zip;
      hide KeyEvents;
      hide TimerEvents;
      hide WithTimers;
      k, dropped := 0, [];
      ghost var p, all := Pending(), WithTimers(Timers(), arrivals);
      assert all[..0] == [] && Generated(all[..0]) == [];
      hide Generated;
      var rest := arrivals;
      while true
        invariant InStep() && OnlyNewNodes() && k <= |arrivals| && rest == arrivals[k..]
        invariant Timers() == if k == 0 then old(Timers()) else []
        invariant forall e :: e in dropped ==> filter != "" && e.name != filter
        invariant p + Generated(all[..k]) == dropped + Pending()
        decreases |rest|, |paramQueue|
      {
        var size := eventQueue.Size();
        if size == 0 {
          if rest == [] {
            return None, k, dropped;  // still waiting for a key or a timer
          }
          ghost var q := Pending();
          ArrivalAt(old(Timers()), arrivals, k);
          Receive(rest[0]);
          GeneratedNext(all, k, p, dropped, q);
          rest := rest[1..];
          k := k + 1;
        } else {
          ghost var q := Pending();
          var e := TakeEvent();
          Assoc(dropped, [e], Pending());
          if |filter| > 0 && e.name != filter {
            dropped := dropped + [e];
          } else {
            return Some(e), k, dropped;
          }
        }
      }
    }
  }

  lemma ArrivalAt(ids: seq<int>, arrivals: seq<Arrival>, k: nat)
    requires k < |arrivals|
    ensures var a, w := arrivals[k], WithTimers(ids, arrivals)[k];
            KeyEvents(w) == KeyEvents(a) && w.timers == (if k == 0 then ids else []) + a.timers
  {
  }

  lemma GeneratedNext(arrivals: seq<Arrival>, k: nat, p: seq<Event>, dropped: seq<Event>, q: seq<Event>)
    requires k < |arrivals| && p + Generated(arrivals[..k]) == dropped + q
    ensures var g := KeyEvents(arrivals[k]) + TimerEvents(arrivals[k].timers);
            p + Generated(arrivals[..k + 1]) == dropped + (q + g)
  {
    hide KeyEvents;
    hide TimerEvents;
    var a, g := arrivals[..k + 1], KeyEvents(arrivals[k]) + TimerEvents(arrivals[k].timers);
    assert a[..k] == arrivals[..k] && a[k] == arrivals[k];
    assert Generated(a) == Generated(arrivals[..k]) + g;
    hide Generated;
    Assoc(p, Generated(arrivals[..k]), g);
    Assoc(dropped, q, g);
  }

  lemma Assoc(a: seq<Event>, b: seq<Event>, c: seq<Event>)
    ensures a + (b + c) == a + b + c
  {
  }
}
