/** POSIX message queues (kernel/ipc/mqueue.c).  Every region under the queue's lock is
    one method, so a run of the system is any sequence of calls; a thread that blocks
    is woken by a later call and then calls again. */
module Mqueue {
  import opened Sequences

  /** id is the message's place in the order of sending. */
  datatype Msg = Msg(priority: nat, id: nat, data: seq<bv8>)

  // --- Waiting threads -----------------------------------------------------------------------------

  /** A growable array of waiting threads, first come first. */
  class WaitQueue {
    var buf: array<nat>
    var count: nat

    ghost predicate Valid()
      reads this
    {
      count <= buf.Length
    }

    ghost function Contents(): seq<nat>
      requires Valid()
      reads this, buf
    {
      buf[..count]
    }

    constructor ()
      ensures Valid() && Contents() == [] && fresh(buf)
    {
      buf := new nat[0];
      count := 0;
    }

    method Add(thread: nat, memory: bool) returns (ok: bool)
      requires Valid()
      modifies this, buf
      ensures Valid() && (buf == old(buf) || fresh(buf))
      ensures ok <==> old(count) < old(buf.Length) || memory
      ensures Contents() == if ok then old(Contents()) + [thread] else old(Contents())
    {
      if count >= buf.Length {
        if !memory {
          return false;
        }
        var bigger := new nat[if buf.Length == 0 then 4 else buf.Length * 2];
        for i := 0 to count
          invariant count == old(count) && buf == old(buf) && Valid() && bigger != buf
          invariant buf[..count] == old(buf[..count]) && bigger[..i] == buf[..i]
        {
          bigger[i] := buf[i];
        }
        buf := bigger;
      }
      buf[count] := thread;
      count := count + 1;
      return true;
    }

    method Wake() returns (woken: bool, thread: nat)
      requires Valid()
      modifies this, buf
      ensures Valid() && buf == old(buf)
      ensures woken <==> old(Contents()) != []
      ensures woken ==> thread == old(Contents())[0] && Contents() == old(Contents())[1..]
      ensures !woken ==> Contents() == old(Contents())
    {
      if count == 0 {
        return false, 0;
      }
      woken, thread := true, buf[0];
      ghost var s := buf[..count];
      for i := 1 to count
        invariant count == old(count) && buf == old(buf) && |s| == count <= buf.Length
        invariant forall k :: 0 <= k < i - 1 ==> buf[k] == s[k + 1]
        invariant forall k :: i - 1 <= k < count ==> buf[k] == s[k]
      {
        buf[i - 1] := buf[i];
      }
      count := count - 1;
      assert buf[..count] == s[1..];
    }
  }

  // --- Order of messages ------------------------------------------------------------------------------

  /** a is to be received before b. */
  predicate Before(a: Msg, b: Msg) {
    a.priority > b.priority || (a.priority == b.priority && a.id < b.id)
  }

  ghost predicate Ordered(s: seq<Msg>) {
    forall i, j :: 0 <= i < j < |s| ==> Before(s[i], s[j])
  }

  ghost predicate Newer(s: seq<Msg>, id: nat) {
    forall i :: 0 <= i < |s| ==> s[i].id < id
  }

  ghost function Set(s: seq<Msg>): set<Msg> {
    set m | m in s
  }

  /** mq_insert_message: behind all messages of the same or a higher priority. */
  function Placed(s: seq<Msg>, m: Msg): seq<Msg> {
    if s == [] || m.priority > s[0].priority then [m] + s else [s[0]] + Placed(s[1..], m)
  }

  /** A newer message put in its place keeps the order of priority, then age. */
  lemma {:induction false} PlacedKeeps(s: seq<Msg>, m: Msg)
    requires Ordered(s) && Newer(s, m.id)
    ensures Ordered(Placed(s, m)) && Set(Placed(s, m)) == Set(s) + {m} && |Placed(s, m)| == |s| + 1
  {
    if s == [] {
    } else if m.priority > s[0].priority {
      assert forall k :: 0 < k < |s| ==> Before(s[0], s[k]);
    } else {
      var rest := s[1..];
      PlacedKeeps(rest, m);
      HeadFirst(s, Placed(rest, m), m);
    }
  }

  lemma HeadFirst(s: seq<Msg>, p: seq<Msg>, m: Msg)
    requires s != [] && Ordered(s) && Newer(s, m.id) && m.priority <= s[0].priority
    requires Ordered(p) && Set(p) == Set(s[1..]) + {m}
    ensures Ordered([s[0]] + p) && Set([s[0]] + p) == Set(s) + {m}
  {
    assert s == [s[0]] + s[1..];
    forall k | 0 <= k < |p|
      ensures Before(s[0], p[k])
    {
      assert p[k] in Set(p);
      if p[k] != m {
        var i :| 0 <= i < |s[1..]| && s[1..][i] == p[k];
        assert s[i + 1] == p[k];
      }
    }
  }

  /** The walk along the list finds the place. */
  lemma {:induction false} PlacedAt(s: seq<Msg>, m: Msg, i: nat)
    requires i <= |s| && (forall k :: 0 <= k < i ==> s[k].priority >= m.priority)
             && (i < |s| ==> s[i].priority < m.priority)
    ensures Placed(s, m) == s[..i] + [m] + s[i..]
  {
    if i > 0 {
      PlacedAt(s[1..], m, i - 1);
      assert s[..i] == [s[0]] + s[1..][..i - 1] && s[1..][i - 1..] == s[i..];
    } else {
      assert s[..0] + [m] + s[0..] == [m] + s;
    }
  }

  // --- What every step keeps ---------------------------------------------------------------------------

  /** The queue, the waiting threads (S to send, R to receive), and a log: all messages
      sent and received, threads woken that have not yet called again, and how many
      woken senders left without sending. */
  datatype State = State(
    msgs: seq<Msg>, cur: nat, max: nat, next: nat, sent: set<Msg>, received: set<Msg>,
    S: seq<nat>, R: seq<nat>, wokenS: set<nat>, wokenR: set<nat>, strayed: nat)

  /** Sent messages are either queued or received, none twice. */
  ghost predicate Conserved(q: State) {
    && Ordered(q.msgs) && Newer(q.msgs, q.next) && q.cur == |q.msgs| <= q.max
    && q.sent == q.received + Set(q.msgs) && q.received !! Set(q.msgs)
    && (forall m :: m in q.sent ==> m.id < q.next)
  }

  /** A thread waits in one place; woken threads do not wait. */
  ghost predicate Waiting(q: State) {
    && NoDup(q.S) && NoDup(q.R)
    && (forall t :: t in q.S ==> t !in q.wokenS) && (forall t :: t in q.R ==> t !in q.wokenR)
  }

  /** Nobody sleeps beside work that nobody was woken for: while receivers sleep, each
      message has a woken receiver; while senders sleep, each free place has a woken
      sender, or one that strayed. */
  ghost predicate NoLostWakeup(q: State) {
    && (q.R != [] ==> q.cur <= |q.wokenR|)
    && (q.S != [] ==> q.max - q.cur <= |q.wokenS| + q.strayed)
  }

  ghost predicate Inv(q: State) {
    Conserved(q) && Waiting(q) && NoLostWakeup(q)
  }

  /** The waiter at the head is woken. */
  lemma WakeFirst(s: seq<nat>, woken: set<nat>)
    requires NoDup(s) && (forall t :: t in s ==> t !in woken) && s != []
    ensures NoDup(s[1..]) && (forall t :: t in s[1..] ==> t !in woken + {s[0]})
    ensures |woken + {s[0]}| == |woken| + 1
  {
  }

  // --- One pass under the lock -------------------------------------------------------------------------

  datatype Attr = Attr(msgSize: nat, nonblock: bool)

  /** A pass by thread t.  memory: kmalloc has room for the message and its data;
      queued: the wait queue has room or can grow. */
  datatype Call =
    | SendCall(t: nat, data: seq<bv8>, priority: nat, memory: bool, queued: bool)
    | ReceiveCall(t: nat, length: nat, queued: bool)

  datatype Outcome = Done | Again | NoMemory | Blocked | TooLong

  /** kmalloc gives nothing for zero bytes, so an empty message finds no memory. */
  function Result(a: Attr, q: State, c: Call): Outcome {
    match c
    case SendCall(_, data, _, memory, queued) =>
      if |data| > a.msgSize then TooLong
      else if q.cur >= q.max then (if a.nonblock then Again else if queued then Blocked else NoMemory)
      else if memory && |data| > 0 then Done else NoMemory
    case ReceiveCall(_, length, queued) =>
      if length < a.msgSize then TooLong
      else if q.cur == 0 then (if a.nonblock then Again else if queued then Blocked else NoMemory)
      else Done
  }

  /** A send that goes through: the message is placed and the first receiver woken. */
  ghost function Sent(q: State, t: nat, m: Msg): State {
    q.(msgs := Placed(q.msgs, m), cur := q.cur + 1, next := q.next + 1, sent := q.sent + {m}, wokenS := q.wokenS - {t},
       R := if q.R == [] then [] else q.R[1..], wokenR := if q.R == [] then q.wokenR else q.wokenR + {q.R[0]})
  }

  /** A receive that goes through: the head leaves and the first sender is woken. */
  ghost function Received(q: State, t: nat): State
    requires q.msgs != [] && q.cur > 0
  {
    q.(msgs := q.msgs[1..], cur := q.cur - 1, received := q.received + {q.msgs[0]}, wokenR := q.wokenR - {t},
       S := if q.S == [] then [] else q.S[1..], wokenS := if q.S == [] then q.wokenS else q.wokenS + {q.S[0]})
  }

  ghost function GaveUp(q: State, t: nat): State {
    q.(wokenS := q.wokenS - {t}, strayed := q.strayed + if t in q.wokenS then 1 else 0)
  }

  ghost function Step(a: Attr, q: State, c: Call): State
    requires q.cur == |q.msgs|
  {
    match Result(a, q, c)
    case TooLong => q
    case Again => q
    case Done => if c.SendCall? then Sent(q, c.t, Msg(c.priority, q.next, c.data)) else Received(q, c.t)
    case Blocked =>
      if c.SendCall? then q.(S := q.S + [c.t], wokenS := q.wokenS - {c.t})
      else q.(R := q.R + [c.t], wokenR := q.wokenR - {c.t})
    case NoMemory => if c.SendCall? then GaveUp(q, c.t) else q.(wokenR := q.wokenR - {c.t})
  }

  lemma SentInv(q: State, t: nat, m: Msg)
    requires Inv(q) && q.cur < q.max && m.id == q.next
    ensures Inv(Sent(q, t, m))
  {
    hide Conserved, Placed;
    SentConserved(q, t, m);
    InvMeans(q);
    if q.R != [] {
      WakeFirst(q.R, q.wokenR);
    }
    assert |q.wokenS - {t}| >= |q.wokenS| - 1;
  }

  lemma SentConserved(q: State, t: nat, m: Msg)
    requires Conserved(q) && q.cur < q.max && m.id == q.next
    ensures Conserved(Sent(q, t, m))
  {
    hide Ordered, Placed, Set, Newer;
    PlacedKeeps(q.msgs, m);
    SetsNewer(Placed(q.msgs, m), q.msgs, m);
  }

  lemma SetsNewer(p: seq<Msg>, s: seq<Msg>, m: Msg)
    requires Set(p) == Set(s) + {m} && Newer(s, m.id)
    ensures Newer(p, m.id + 1)
  {
    forall i | 0 <= i < |p|
      ensures p[i].id < m.id + 1
    {
      assert p[i] in Set(p);
    }
  }

  lemma ReceivedInv(q: State, t: nat)
    requires Inv(q) && q.cur > 0
    ensures Inv(Received(q, t)) && q.msgs[0] in q.sent && q.msgs[0] !in q.received
    ensures forall m :: m in q.sent - q.received && m != q.msgs[0] ==> Before(q.msgs[0], m)
  {
    hide Conserved;
    InvMeans(q);
    ReceivedConserved(q, t);
    if q.S != [] {
      WakeFirst(q.S, q.wokenS);
    }
    hide NoDup;
    assert |q.wokenR - {t}| >= |q.wokenR| - 1;
  }

  lemma ReceivedConserved(q: State, t: nat)
    requires Conserved(q) && q.cur > 0
    ensures Conserved(Received(q, t)) && q.msgs[0] in q.sent && q.msgs[0] !in q.received
    ensures forall m :: m in q.sent - q.received && m != q.msgs[0] ==> Before(q.msgs[0], m)
  {
    hide Ordered, Newer, Set, Before;
    HeadOut(q.msgs, q.next);
  }

  lemma HeadOut(s: seq<Msg>, next: nat)
    requires Ordered(s) && Newer(s, next) && s != []
    ensures Ordered(s[1..]) && Newer(s[1..], next)
    ensures Set(s) == Set(s[1..]) + {s[0]} && s[0] !in Set(s[1..])
    ensures forall x :: x in Set(s) && x != s[0] ==> Before(s[0], x)
  {
    assert s == [s[0]] + s[1..];
    assert forall i :: 0 <= i < |s[1..]| ==> s[1..][i] == s[i + 1];
    forall x | x in s && x != s[0]
      ensures Before(s[0], x)
    {
      var i :| 0 <= i < |s| && s[i] == x;
    }
  }

  lemma BlockedInv(q: State, t: nat)
    requires Inv(q) && t !in q.S && t !in q.R
    ensures q.cur >= q.max ==> Inv(q.(S := q.S + [t], wokenS := q.wokenS - {t}))
    ensures q.cur == 0 ==> Inv(q.(R := q.R + [t], wokenR := q.wokenR - {t}))
  {
  }

  /** A sender gives up for lack of memory. */
  lemma GaveUpInv(q: State, t: nat)
    requires Inv(q)
    ensures Inv(GaveUp(q, t))
  {
  }

  /** A receiver leaves an empty queue. */
  lemma LeftInv(q: State, t: nat)
    requires Inv(q) && q.cur == 0
    ensures Inv(q.(wokenR := q.wokenR - {t}))
  {
  }

  /** The thread is not asleep. */
  ghost predicate Awake(q: State, c: Call) {
    c.t !in q.S && c.t !in q.R
  }

  /** Every pass keeps the invariant. */
  lemma StepInv(a: Attr, q: State, c: Call)
    requires Inv(q) && Awake(q, c)
    ensures Inv(Step(a, q, c))
  {
    hide Conserved, Waiting, NoLostWakeup, Placed;
    InvMeans(q);
    BlockedInv(q, c.t);
    GaveUpInv(q, c.t);
    match Result(a, q, c)
    case Done =>
      if c.SendCall? {
        SentInv(q, c.t, Msg(c.priority, q.next, c.data));
      } else {
        ReceivedInv(q, c.t);
      }
    case NoMemory =>
      if c.ReceiveCall? {
        LeftInv(q, c.t);
      }
    case _ =>
  }

  lemma InvMeans(q: State)
    requires Inv(q)
    ensures Ordered(q.msgs) && Newer(q.msgs, q.next) && q.cur == |q.msgs| <= q.max
  {
  }

  // --- Senders asleep ------------------------------------------------------------------------------------

  /** While senders sleep, each free place has a sender that was woken for it. */
  ghost predicate Announced(q: State) {
    q.S != [] ==> q.max - q.cur <= |q.wokenS|
  }

  /** A woken sender gives up, for lack of memory or of anything to send, while others
      sleep and no more were woken than needed. */
  ghost predicate Loses(a: Attr, q: State, c: Call) {
    && c.SendCall? && Result(a, q, c) == NoMemory && c.t in q.wokenS
    && q.S != [] && q.max - q.cur >= |q.wokenS|
  }

  lemma Leaving(s: set<nat>, t: nat)
    ensures |s - {t}| == |s| - if t in s then 1 else 0
  {
    assert t !in s ==> s - {t} == s;
  }

  /** That, and nothing else, makes a free place go unannounced. */
  lemma AnnouncedExactly(a: Attr, q: State, c: Call)
    requires Inv(q) && Awake(q, c) && Announced(q)
    ensures Announced(Step(a, q, c)) <==> !Loses(a, q, c)
  {
    hide Placed, Ordered, Conserved, Newer, NoDup, NoLostWakeup;
    InvMeans(q);
    Leaving(q.wokenS, c.t);
    if q.S != [] {
      WakeFirst(q.S, q.wokenS);
    }
  }

  // --- Runs ---------------------------------------------------------------------------------------------

  ghost function Empty(max: nat): State {
    State([], 0, max, 0, {}, {}, [], [], {}, {}, 0)
  }

  /** Any interleaving: the passes of all threads, one after the other. */
  ghost predicate Run(a: Attr, max: nat, qs: seq<State>, calls: seq<Call>) {
    && |qs| == |calls| + 1 && qs[0] == Empty(max)
    && (forall i :: 0 <= i < |calls| ==>
          qs[i].cur == |qs[i].msgs| && Awake(qs[i], calls[i]) && qs[i + 1] == Step(a, qs[i], calls[i]))
  }

  /** Woken senders that gave up in the first n passes. */
  ghost function Strays(a: Attr, qs: seq<State>, calls: seq<Call>, n: nat): nat
    requires n <= |calls| && n <= |qs|
  {
    if n == 0 then 0
    else
      var q, c := qs[n - 1], calls[n - 1];
      Strays(a, qs, calls, n - 1) + if c.SendCall? && Result(a, q, c) == NoMemory && c.t in q.wokenS then 1 else 0
  }

  /** At every point of every run from the empty queue: no message is lost, repeated or
      out of order, the bound holds, no receiver sleeps beside an unannounced message,
      and no sender beside an unannounced place unless woken senders gave up. */
  lemma {:induction false} RunKeeps(a: Attr, max: nat, qs: seq<State>, calls: seq<Call>, n: nat)
    requires Run(a, max, qs, calls) && n <= |calls|
    ensures Inv(qs[n]) && qs[n].max == max && qs[n].strayed == Strays(a, qs, calls, n)
  {
    hide Conserved, Waiting, NoLostWakeup, Placed;
    if n == 0 {
      EmptyInv(max);
    } else {
      RunKeeps(a, max, qs, calls, n - 1);
      StepInv(a, qs[n - 1], calls[n - 1]);
    }
  }

  lemma EmptyInv(max: nat)
    ensures Inv(Empty(max))
  {
  }

  /** Over a whole run all places are announced at all times if and only if no woken
      sender ever gives up while others sleep and no more were woken than needed. */
  lemma RunAnnounced(a: Attr, max: nat, qs: seq<State>, calls: seq<Call>)
    requires Run(a, max, qs, calls)
    ensures (forall n: nat :: n <= |calls| ==> Announced(qs[n]))
       <==> (forall i: nat :: i < |calls| ==> !Loses(a, qs[i], calls[i]))
  {
    hide Conserved, Waiting, NoLostWakeup, Placed, Loses, Announced, Step, Result;
    forall i: nat | i < |calls| && Announced(qs[i])
      ensures Announced(qs[i + 1]) <==> !Loses(a, qs[i], calls[i])
    {
      RunKeeps(a, max, qs, calls, i);
      AnnouncedExactly(a, qs[i], calls[i]);
    }
    if forall n: nat :: n <= |calls| ==> Announced(qs[n]) {
      forall i: nat | i < |calls|
        ensures !Loses(a, qs[i], calls[i])
      {
        assert Announced(qs[i]) && Announced(qs[i + 1]);
      }
    }
    if forall i: nat :: i < |calls| ==> !Loses(a, qs[i], calls[i]) {
      AnnouncedUpTo(a, max, qs, calls, |calls|);
    }
  }

  lemma {:induction false} AnnouncedUpTo(a: Attr, max: nat, qs: seq<State>, calls: seq<Call>, n: nat)
    requires Run(a, max, qs, calls) && n <= |calls| && forall i: nat :: i < |calls| ==> !Loses(a, qs[i], calls[i])
    ensures forall k: nat :: k <= n ==> Announced(qs[k])
  {
    hide Conserved, Waiting, NoLostWakeup, Placed, Loses, Step, Result;
    if n > 0 {
      AnnouncedUpTo(a, max, qs, calls, n - 1);
      RunKeeps(a, max, qs, calls, n - 1);
      AnnouncedExactly(a, qs[n - 1], calls[n - 1]);
    }
  }

  ghost predicate Delivers(a: Attr, q: State, c: Call) {
    c.ReceiveCall? && Result(a, q, c) == Done && q.msgs != []
  }

  /** No message is delivered twice in a run. */
  lemma DeliveredOnce(a: Attr, max: nat, qs: seq<State>, calls: seq<Call>, i: nat, j: nat)
    requires Run(a, max, qs, calls) && i < j < |calls| && Delivers(a, qs[i], calls[i]) && Delivers(a, qs[j], calls[j])
    ensures qs[i].msgs[0] != qs[j].msgs[0]
  {
    hide Conserved, Waiting, NoLostWakeup, Placed;
    ReceivedGrows(a, max, qs, calls, i + 1, j);
    RunKeeps(a, max, qs, calls, j);
    ReceivedInv(qs[j], calls[j].t);
  }

  lemma {:induction false} ReceivedGrows(a: Attr, max: nat, qs: seq<State>, calls: seq<Call>, i: nat, j: nat)
    requires Run(a, max, qs, calls) && i <= j <= |calls|
    ensures qs[i].received <= qs[j].received && qs[i].sent <= qs[j].sent
    decreases j - i
  {
    if i < j {
      ReceivedGrows(a, max, qs, calls, i, j - 1);
    }
  }

  /** Five passes on a queue of one one-byte message: thread 1 sends, 2 and 3 wait to
      send, 4 receives and so wakes 2, and 2 tries again with its data. */
  function StrayedCalls(data: seq<bv8>, memory: bool): seq<Call> {
    [SendCall(1, [0], 0, true, true), SendCall(2, data, 0, true, true), SendCall(3, [0], 0, true, true),
     ReceiveCall(4, 1, true), SendCall(2, data, 0, memory, true)]
  }

  ghost function StrayedStates(): seq<State> {
    var m := Msg(0, 0, [0]);
    [Empty(1),
     State([m], 1, 1, 1, {m}, {}, [], [], {}, {}, 0),
     State([m], 1, 1, 1, {m}, {}, [2], [], {}, {}, 0),
     State([m], 1, 1, 1, {m}, {}, [2, 3], [], {}, {}, 0),
     State([], 0, 1, 1, {m}, {m}, [3], [], {2}, {}, 0),
     State([], 0, 1, 1, {m}, {m}, [3], [], {}, {}, 1)]
  }

  /** If 2 has nothing to send, or finds no memory, it gives up; then 3 sleeps although
      the queue is empty and nobody has been woken. */
  lemma StrayedSender(data: seq<bv8>, memory: bool)
    requires |data| <= 1 && (data == [] || !memory)
    ensures Run(Attr(1, false), 1, StrayedStates(), StrayedCalls(data, memory))
    ensures var q := StrayedStates()[5]; q.S == [3] && q.cur == 0 < q.max && q.wokenS == {} && !Announced(q)
  {
    hide Step;
    FirstPasses(data, memory);
    LastPasses(data, memory);
  }

  lemma FirstPasses(data: seq<bv8>, memory: bool)
    requires |data| <= 1
    ensures var a, qs, cs := Attr(1, false), StrayedStates(), StrayedCalls(data, memory);
            qs[1] == Step(a, qs[0], cs[0]) && qs[2] == Step(a, qs[1], cs[1]) && qs[3] == Step(a, qs[2], cs[2])
  {
    var m := Msg(0, 0, [0]);
    assert Placed([], m) == [m];
  }

  lemma LastPasses(data: seq<bv8>, memory: bool)
    requires |data| <= 1 && (data == [] || !memory)
    ensures var a, qs, cs := Attr(1, false), StrayedStates(), StrayedCalls(data, memory);
            qs[4] == Step(a, qs[3], cs[3]) && qs[5] == Step(a, qs[4], cs[4])
  {
  }

  // --- The queue -------------------------------------------------------------------------------------------

  class Queue {
    const max: nat
    const msgSize: nat
    const nonblock: bool
    const senders: WaitQueue
    const receivers: WaitQueue
    var msgs: seq<Msg>
    var cur: nat
    var next: nat
    ghost var sent: set<Msg>
    ghost var received: set<Msg>
    ghost var wokenS: set<nat>
    ghost var wokenR: set<nat>
    ghost var strayed: nat

    ghost predicate Shape()
      reads this, senders, receivers
    {
      senders != receivers && senders.Valid() && receivers.Valid() && senders.buf != receivers.buf
    }

    ghost function St(): State
      requires Shape()
      reads this, senders, receivers, senders.buf, receivers.buf
    {
      State(msgs, cur, max, next, sent, received, senders.Contents(), receivers.Contents(), wokenS, wokenR, strayed)
    }

    constructor (max: nat, msgSize: nat, nonblock: bool)
      ensures Shape() && Inv(St()) && St() == Empty(max)
      ensures fresh(senders) && fresh(receivers) && fresh(senders.buf) && fresh(receivers.buf)
    {
      this.max, this.msgSize, this.nonblock := max, msgSize, nonblock;
      var s := new WaitQueue();
      var r := new WaitQueue();
      senders, receivers := s, r;
      msgs, cur := [], 0;
      next, sent, received, wokenS, wokenR, strayed := 0, {}, {}, {}, {}, 0;
    }

    /** mq_insert_message. */
    method Insert(m: Msg)
      modifies this`msgs
      ensures msgs == Placed(old(msgs), m)
    {
      hide Placed;
      if msgs == [] || m.priority > msgs[0].priority {
        PlacedAt(msgs, m, 0);
        assert msgs[..0] + [m] + msgs[0..] == [m] + msgs;
        msgs := [m] + msgs;
        return;
      }
      var prev := 0;
      while prev + 1 < |msgs| && msgs[prev + 1].priority >= m.priority
        invariant 0 <= prev < |msgs|
        invariant forall k :: 0 <= k <= prev ==> msgs[k].priority >= m.priority
      {
        prev := prev + 1;
      }
      PlacedAt(msgs, m, prev + 1);
      msgs := msgs[..prev + 1] + [m] + msgs[prev + 1..];
    }

    /** mq_wake_recv_waiter, with the log kept. */
    method WakeReceiver()
      requires Shape()
      modifies this`wokenR, receivers, receivers.buf
      ensures Shape() && senders.Contents() == old(senders.Contents())
      ensures var R := old(receivers.Contents());
              if R == [] then receivers.Contents() == [] && wokenR == old(wokenR)
              else receivers.Contents() == R[1..] && wokenR == old(wokenR) + {R[0]}
    {
      var woken, thread := receivers.Wake();
      if woken {
        wokenR := wokenR + {thread};
      }
    }

    method WakeSender()
      requires Shape()
      modifies this`wokenS, senders, senders.buf
      ensures Shape() && receivers.Contents() == old(receivers.Contents())
      ensures var S := old(senders.Contents());
              if S == [] then senders.Contents() == [] && wokenS == old(wokenS)
              else senders.Contents() == S[1..] && wokenS == old(wokenS) + {S[0]}
    {
      var woken, thread := senders.Wake();
      if woken {
        wokenS := wokenS + {thread};
      }
    }

    /** The message goes in and a receiver is woken. */
    method Enqueue(t: nat, m: Msg)
      requires Shape()
      modifies this, senders, receivers, senders.buf, receivers.buf
      ensures Shape() && St() == Sent(old(St()), t, m)
    {
      hide Placed;
      ghost var q := St();
      Insert(m);
      cur := cur + 1;
      next := next + 1;
      sent, wokenS := sent + {m}, wokenS - {t};
      WakeReceiver();
      assert St() == Sent(q, t, m);
    }

    /** The first message goes out and a sender is woken. */
    method Dequeue(t: nat) returns (m: Msg)
      requires Shape() && msgs != [] && cur > 0
      modifies this, senders, receivers, senders.buf, receivers.buf
      ensures Shape() && m == old(msgs)[0] && St() == Received(old(St()), t)
    {
      ghost var q := St();
      m := msgs[0];
      msgs := msgs[1..];
      cur := cur - 1;
      received, wokenR := received + {m}, wokenR - {t};
      WakeSender();
      assert St() == Received(q, t);
    }

    ghost function Attributes(): Attr {
      Attr(msgSize, nonblock)
    }

    /** One pass of mq_send under the lock.  memory: kmalloc has room for the message and
        its data; room: the wait queue can grow. */
    method Send(t: nat, data: seq<bv8>, priority: nat, memory: bool, room: bool) returns (r: Outcome)
      requires Shape() && Inv(St()) && t !in St().S && t !in St().R
      modifies this, senders, receivers, senders.buf, receivers.buf
      ensures Shape() && Inv(St())
      ensures var c := SendCall(t, data, priority, memory, room || old(senders.count) < old(senders.buf.Length));
              r == Result(Attributes(), old(St()), c) && St() == Step(Attributes(), old(St()), c)
    {
      hide Inv, Sent, Received;
      ghost var q := St();
      ghost var c := SendCall(t, data, priority, memory, room || senders.count < senders.buf.Length);
      InvMeans(q);
      StepInv(Attributes(), q, c);
      if |data| > msgSize {
        return TooLong;
      }
      if cur >= max {
        if nonblock {
          return Again;
        }
        var ok := senders.Add(t, room);
        if !ok {
          strayed := strayed + if t in wokenS then 1 else 0;
        }
        wokenS := wokenS - {t};
        return if ok then Blocked else NoMemory;
      }
      if !memory || |data| == 0 {
        strayed := strayed + if t in wokenS then 1 else 0;
        wokenS := wokenS - {t};
        return NoMemory;
      }
      Enqueue(t, Msg(priority, next, data));
      return Done;
    }

    /** One pass of mq_receive under the lock: the oldest of the most urgent messages. */
    method Receive(t: nat, length: nat, room: bool) returns (r: Outcome, m: Msg)
      requires Shape() && Inv(St()) && t !in St().S && t !in St().R
      modifies this, senders, receivers, senders.buf, receivers.buf
      ensures Shape() && Inv(St())
      ensures var c := ReceiveCall(t, length, room || old(receivers.count) < old(receivers.buf.Length));
              r == Result(Attributes(), old(St()), c) && St() == Step(Attributes(), old(St()), c)
      ensures r == Done ==> m in old(sent) - old(received) && received == old(received) + {m}
      ensures r == Done ==> forall x :: x in old(sent) - old(received) && x != m ==> Before(m, x)
    {
      hide Inv, Sent, Before;
      ghost var q := St();
      ghost var c := ReceiveCall(t, length, room || receivers.count < receivers.buf.Length);
      InvMeans(q);
      StepInv(Attributes(), q, c);
      m := Msg(0, 0, []);
      if length < msgSize {
        return TooLong, m;
      }
      if cur == 0 {
        if nonblock {
          return Again, m;
        }
        var ok := receivers.Add(t, room);
        wokenR := wokenR - {t};
        return if ok then Blocked else NoMemory, m;
      }
      ReceivedInv(q, t);
      m := Dequeue(t);
      return Done, m;
    }
  }
}
