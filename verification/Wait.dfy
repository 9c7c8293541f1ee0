/** The parser thread's wait for data: it rotates the message queue past the
    messages of the session until data or the end of the session comes up. */
module DriverWait {
  import opened MessageBlocks
  import opened Wrappers

  /** The message type and, for messages of the session, what is read off them;
      a session message of the wrong class can not be read. */
  datatype Kind = Data | Object | SessionEnd | SessionOther | Unreadable | Other

  datatype Message = Message(kind: Kind, block: MessageBlock)

  /** Messages that end the wait. */
  predicate Decisive(m: Message) {
    m.kind == Data || m.kind == Object || m.kind == SessionEnd || m.kind == Unreadable
  }

  class MessageQueue {
    var items: seq<Message>
    var active: bool

    constructor ()
      ensures items == [] && active
    {
      items, active := [], true;
    }

    /** dequeue_head: `arrived` is what other threads add before it returns; on
        an empty queue it does not return before something arrives. */
    method DequeueHead(arrived: seq<Message>) returns (m: Option<Message>)
      requires active ==> items + arrived != []
      modifies this`items
      ensures !active ==> m == None && items == old(items)
      ensures active ==> m == Some((old(items) + arrived)[0]) && items == (old(items) + arrived)[1..]
    {
      if !active {
        return None;
      }
      items := items + arrived;
      m := Some(items[0]);
      items := items[1..];
    }

    method EnqueueTail(m: Message) returns (result: int)
      modifies this`items
      ensures !active ==> result == -1 && items == old(items)
      ensures active ==> result == 0 && items == old(items) + [m]
    {
      if !active {
        return -1;
      }
      items := items + [m];
      return 0;
    }
  }

  // ---- What the wait comes to ----

  /** What arrives before the next message is taken out, and afterwards. */
  function Batch(arrivals: seq<seq<Message>>): seq<Message> {
    if arrivals == [] then [] else arrivals[0]
  }

  function Later(arrivals: seq<seq<Message>>): seq<seq<Message>> {
    if arrivals == [] then [] else arrivals[1..]
  }

  function Concat(arrivals: seq<seq<Message>>): seq<Message> {
    if arrivals == [] then [] else arrivals[0] + Concat(arrivals[1..])
  }

  /** The position of the first message that ends the wait, or the length. */
  function First(q: seq<Message>): (i: nat)
    ensures i <= |q| && (i < |q| ==> Decisive(q[i])) && forall j :: 0 <= j < i ==> !Decisive(q[j])
  {
    if q == [] || Decisive(q[0]) then 0 else 1 + First(q[1..])
  }

  /** The first message that ends the wait, if there is one. */
  function FirstOf(q: seq<Message>): Option<Message> {
    if First(q) < |q| then Some(q[First(q)]) else None
  }

  /** The queue is not left empty, and a message that ends the wait is there or
      going to arrive. */
  predicate Awaited(q: seq<Message>, arrivals: seq<seq<Message>>) {
    q + Batch(arrivals) != [] && FirstOf(q + Concat(arrivals)).Some?
  }

  /** The message that ends the wait, the queue without it and what is still to arrive. */
  datatype End = End(message: Message, queue: seq<Message>, pending: seq<seq<Message>>)

  function Ended(q: seq<Message>, arrivals: seq<seq<Message>>): End
    requires Awaited(q, arrivals)
    decreases |arrivals|, First(q)
  {
    var all := q + Batch(arrivals);
    if Decisive(all[0]) then End(all[0], all[1..], Later(arrivals))
    else
      PutBack(q, arrivals);
      Ended(all[1..] + [all[0]], Later(arrivals))
  }

  lemma {:induction false} FirstAppend(q: seq<Message>, r: seq<Message>)
    ensures First(q + r) == if First(q) < |q| then First(q) else |q| + First(r)
    ensures FirstOf(q + r) == if FirstOf(q).Some? then FirstOf(q) else FirstOf(r)
  {
    if q == [] {
      assert q + r == r;
    } else if !Decisive(q[0]) {
      assert (q + r)[1..] == q[1..] + r;
      FirstAppend(q[1..], r);
    }
  }

  lemma FirstBehind(m: Message, tail: seq<Message>, more: seq<Message>)
    requires !Decisive(m)
    ensures FirstOf([m] + tail + more) == FirstOf(tail + [m] + more)
    ensures FirstOf([m] + tail).Some? ==> First(tail + [m]) < First([m] + tail)
  {
    assert First([m]) == 1;
    FirstAppend([m] + tail, more);
    FirstAppend([m], tail);
    FirstAppend(tail + [m], more);
    FirstAppend(tail, [m]);
    hide First;
  }

  /** A message that does not end the wait goes to the end of the queue: the same
      one comes first, and it comes closer. */
  lemma PutBack(q: seq<Message>, arrivals: seq<seq<Message>>)
    requires Awaited(q, arrivals) && !Decisive((q + Batch(arrivals))[0])
    ensures var all := q + Batch(arrivals);
      var next := all[1..] + [all[0]];
      && Awaited(next, Later(arrivals))
      && FirstOf(next + Concat(Later(arrivals))) == FirstOf(q + Concat(arrivals))
      && (arrivals == [] ==> First(next) < First(q))
  {
    var all, more := q + Batch(arrivals), Concat(Later(arrivals));
    ConcatStep(arrivals);
    HeadFirst(q, Batch(arrivals), more);
    hide First, FirstOf, Decisive, Concat;
    FirstBehind(all[0], all[1..], more);
  }

  lemma ConcatStep(arrivals: seq<seq<Message>>)
    ensures Concat(arrivals) == Batch(arrivals) + Concat(Later(arrivals))
  {}

  lemma HeadFirst<A>(q: seq<A>, b: seq<A>, more: seq<A>)
    requires q + b != []
    ensures var all := q + b;
      q + (b + more) == [all[0]] + all[1..] + more && (b == [] ==> q == [all[0]] + all[1..])
  {
    assert q + (b + more) == (q + b) + more;
  }

  /** The wait ends with the first decisive message of the queue and all that
      arrives, however many others go round before it is there. */
  lemma {:induction false} EndedFirst(q: seq<Message>, arrivals: seq<seq<Message>>)
    requires Awaited(q, arrivals)
    ensures Some(Ended(q, arrivals).message) == FirstOf(q + Concat(arrivals)) && Decisive(Ended(q, arrivals).message)
    decreases |arrivals|, First(q)
  {
    var all := q + Batch(arrivals);
    if Decisive(all[0]) {
      assert q + Concat(arrivals) == all + Concat(Later(arrivals));
      FirstAppend(all, Concat(Later(arrivals)));
    } else {
      PutBack(q, arrivals);
      EndedFirst(all[1..] + [all[0]], Later(arrivals));
    }
  }

  /** Going round loses and duplicates nothing. */
  lemma {:induction false} EndedKeeps(q: seq<Message>, arrivals: seq<seq<Message>>)
    requires Awaited(q, arrivals)
    ensures var e := Ended(q, arrivals);
      multiset(e.queue) + multiset{e.message} + multiset(Concat(e.pending)) == multiset(q) + multiset(Concat(arrivals))
    decreases |arrivals|, First(q)
  {
    var all := q + Batch(arrivals);
    var next := all[1..] + [all[0]];
    Turned(q, Batch(arrivals), Concat(Later(arrivals)), all[0], all[1..]);
    ConcatStep(arrivals);
    if !Decisive(all[0]) {
      PutBack(q, arrivals);
      EndedKeeps(next, Later(arrivals));
      hide Concat, First, Ended, Awaited, Batch, Later;
    }
  }

  lemma Turned<A>(q: seq<A>, b: seq<A>, more: seq<A>, m: A, tail: seq<A>)
    requires q + b == [m] + tail
    ensures multiset(tail) + multiset{m} + multiset(more) == multiset(q) + multiset(b + more)
    ensures multiset(tail + [m]) == multiset(tail) + multiset{m}
  {
    assert multiset(b + more) == multiset(b) + multiset(more);
    assert multiset(q + b) == multiset(q) + multiset(b);
    assert multiset([m] + tail) == multiset{m} + multiset(tail) == multiset(tail) + multiset{m};
    assert multiset(q) + (multiset(b) + multiset(more)) == (multiset(q) + multiset(b)) + multiset(more);
  }

  /** Message `i` is the first of data, the end of the session and what can not be read. */
  ghost predicate EndsAt(q: seq<Message>, i: nat) {
    && i < |q| && (forall j :: 0 <= j < i ==> q[j].kind == SessionOther || q[j].kind == Other)
    && (q[i].kind == Data || q[i].kind == Object || q[i].kind == SessionEnd || q[i].kind == Unreadable)
  }

  lemma {:induction false} EndsFirst(q: seq<Message>, i: nat)
    requires EndsAt(q, i)
    ensures First(q) == i && FirstOf(q) == Some(q[i])
  {
    if i > 0 {
      EndsFirst(q[1..], i - 1);
    }
  }

  /** The messages `s` go to the end of the queue one by one, and before each of
      them whatever arrives meanwhile. */
  function Woven(s: seq<Message>, arrivals: seq<seq<Message>>): seq<Message> {
    if s == [] then Batch(arrivals) else Batch(arrivals) + [s[0]] + Woven(s[1..], Later(arrivals))
  }

  /** If the message is in the queue already, the rest of the queue is followed
      by what arrives, in that order, and by what was before the message. */
  lemma {:induction false} EndedWoven(s: seq<Message>, d: Message, r: seq<Message>, arrivals: seq<seq<Message>>)
    requires EndsAt(s + [d] + r, |s|)
    ensures Awaited(s + [d] + r, arrivals)
    ensures Ended(s + [d] + r, arrivals).message == d
    ensures Ended(s + [d] + r, arrivals).queue == r + Woven(s, arrivals)
  {
    hide *;
    var q, b := s + [d] + r, Batch(arrivals);
    EndsAwaited(q, |s|, arrivals);
    if s == [] {
      assert q == [d] + r;
      EndsKind(q, 0);
      WovenHere(d, r, arrivals);
    } else {
      var r1 := r + b + [s[0]];
      EndsNext(s, d, r, r1);
      WovenNext(s, d, r, arrivals);
      EndedWoven(s[1..], d, r1, Later(arrivals));
      EndedStep(q, arrivals, s[0], s[1..] + [d] + (r + b), s[1..] + [d] + r1, Later(arrivals));
    }
  }

  lemma EndsKind(q: seq<Message>, i: nat)
    requires EndsAt(q, i)
    ensures Decisive(q[i])
  {}

  lemma EndsAwaited(q: seq<Message>, i: nat, arrivals: seq<seq<Message>>)
    requires EndsAt(q, i)
    ensures Awaited(q, arrivals)
  {
    EndsFirst(q, i);
    FirstAppend(q, Concat(arrivals));
  }

  lemma WovenHere(d: Message, r: seq<Message>, arrivals: seq<seq<Message>>)
    requires Decisive(d) && Awaited([d] + r, arrivals)
    ensures var e := Ended([d] + r, arrivals); e.message == d && e.queue == r + Woven([], arrivals)
  {
    hide Awaited, First, FirstOf, Concat;
    assert ([d] + r + Batch(arrivals))[1..] == r + Batch(arrivals);
  }

  lemma EndsNext(s: seq<Message>, d: Message, r: seq<Message>, r1: seq<Message>)
    requires s != [] && EndsAt(s + [d] + r, |s|)
    ensures !Decisive(s[0]) && EndsAt(s[1..] + [d] + r1, |s| - 1)
  {
    var q, q1 := s + [d] + r, s[1..] + [d] + r1;
    assert q[0] == s[0];
    assert forall j :: 0 <= j < |s| ==> q1[j] == q[j + 1];
  }

  lemma WovenNext(s: seq<Message>, d: Message, r: seq<Message>, arrivals: seq<seq<Message>>)
    requires s != []
    ensures var b := Batch(arrivals);
      var r1 := r + b + [s[0]];
      && s + [d] + r + b == [s[0]] + (s[1..] + [d] + (r + b))
      && s[1..] + [d] + r1 == s[1..] + [d] + (r + b) + [s[0]]
      && r1 + Woven(s[1..], Later(arrivals)) == r + Woven(s, arrivals)
  {
    var b, w := Batch(arrivals), Woven(s[1..], Later(arrivals));
    assert Woven(s, arrivals) == b + [s[0]] + w;
    hide *;
    Regrouped(s, d, r, b, w);
  }

  lemma Regrouped<A>(s: seq<A>, d: A, r: seq<A>, b: seq<A>, w: seq<A>)
    requires s != []
    ensures s + [d] + r + b == [s[0]] + (s[1..] + [d] + (r + b))
    ensures s[1..] + [d] + (r + b + [s[0]]) == s[1..] + [d] + (r + b) + [s[0]]
    ensures r + b + [s[0]] + w == r + (b + [s[0]] + w)
  {}

  /** If nothing arrives meanwhile, what is before the message goes behind the rest. */
  lemma {:induction false} WovenQuiet(s: seq<Message>)
    ensures Woven(s, []) == s
  {
    if s != [] {
      WovenQuiet(s[1..]);
    }
  }

  lemma QuietEnd(q: seq<Message>, i: nat)
    requires EndsAt(q, i)
    ensures Awaited(q, []) && Ended(q, []).message == q[i] && Ended(q, []).queue == q[i + 1..] + q[..i]
  {
    assert q == q[..i] + [q[i]] + q[i + 1..];
    EndedWoven(q[..i], q[i], q[i + 1..], []);
    WovenQuiet(q[..i]);
  }

  /** All that is put into the queue until message `k` is taken out, in order:
      the messages there, each batch of arrivals and each message put back. */
  function Log(q: seq<Message>, arrivals: seq<seq<Message>>, k: nat): (log: seq<Message>)
    requires q + Batch(arrivals) != []
    ensures |log| > k
  {
    if k == 0 then q + Batch(arrivals)
    else
      var before := Log(q, arrivals, k - 1);
      before + [before[k - 1]] + Arriving(arrivals, k)
  }

  lemma {:induction false} LogStep(q: seq<Message>, arrivals: seq<seq<Message>>, k: nat)
    requires q + Batch(arrivals) != []
    ensures var all := q + Batch(arrivals);
      Log(q, arrivals, k + 1) == [all[0]] + Log(all[1..] + [all[0]], Later(arrivals), k)
  {
    hide *;
    var all, later := q + Batch(arrivals), Later(arrivals);
    var next := all[1..] + [all[0]];
    LogNext(q, arrivals, k + 1);
    ArrivingLater(arrivals, k);
    if k == 0 {
      LogNext(q, arrivals, 0);
      LogNext(next, later, 0);
      assert all + [all[0]] + Arriving(arrivals, 1) == [all[0]] + (next + Arriving(arrivals, 1));
    } else {
      LogStep(q, arrivals, k - 1);
      LogNext(next, later, k);
      Lengthened(Log(q, arrivals, k), Log(next, later, k - 1), all[0], k, Arriving(arrivals, k + 1));
    }
  }

  lemma Lengthened<A>(one: seq<A>, two: seq<A>, m: A, k: nat, b: seq<A>)
    requires one == [m] + two && 0 < k <= |two|
    ensures one + [one[k]] + b == [m] + (two + [two[k - 1]] + b)
  {}

  /** The batch that arrives before message `k` is taken out. */
  function Arriving(arrivals: seq<seq<Message>>, k: nat): seq<Message> {
    if k < |arrivals| then arrivals[k] else []
  }

  lemma ArrivingLater(arrivals: seq<seq<Message>>, k: nat)
    ensures Arriving(arrivals, k + 1) == Arriving(Later(arrivals), k) && Arriving(arrivals, 0) == Batch(arrivals)
  {}

  lemma LogNext(q: seq<Message>, arrivals: seq<seq<Message>>, k: nat)
    requires q + Batch(arrivals) != []
    ensures Log(q, arrivals, k) ==
      if k == 0 then q + Arriving(arrivals, 0)
      else
        var before := Log(q, arrivals, k - 1);
        before + [before[k - 1]] + Arriving(arrivals, k)
  {}

  /** First in, first out, whatever arrives and however often messages go round:
      the wait ends with the first decisive message of the log and leaves what
      was put into the queue behind it, in that order. */
  lemma {:induction false} EndedLog(q: seq<Message>, arrivals: seq<seq<Message>>) returns (k: nat)
    requires Awaited(q, arrivals)
    ensures EndsAt(Log(q, arrivals, k), k)
    ensures Ended(q, arrivals).message == Log(q, arrivals, k)[k]
    ensures Ended(q, arrivals).queue == Log(q, arrivals, k)[k + 1..]
    ensures Ended(q, arrivals).pending == Pending(arrivals, k)
    decreases |arrivals|, First(q)
  {
    hide *;
    var all := q + Batch(arrivals);
    LogBegin(q, arrivals);
    if Decisive(all[0]) {
      return 0;
    }
    PutBack(q, arrivals);
    EndedStep(q, arrivals, all[0], all[1..], all[1..] + [all[0]], Later(arrivals));
    var j := EndedLog(all[1..] + [all[0]], Later(arrivals));
    LogStep(q, arrivals, j);
    LogShift(all[0], Log(all[1..] + [all[0]], Later(arrivals), j), j);
    PendingLater(arrivals, j);
    return j + 1;
  }

  lemma LogBegin(q: seq<Message>, arrivals: seq<seq<Message>>)
    requires Awaited(q, arrivals)
    ensures var all := q + Batch(arrivals);
      && all != [] && Log(q, arrivals, 0) == all && all == [all[0]] + all[1..]
      && (Decisive(all[0]) ==> Ended(q, arrivals) == End(all[0], all[1..], Pending(arrivals, 0)) && EndsAt(all, 0))
      && if arrivals == [] then Later(arrivals) == [] else |Later(arrivals)| < |arrivals|
  {
    hide First, FirstOf, Concat;
  }

  lemma LogShift(m: Message, log: seq<Message>, j: nat)
    requires EndsAt(log, j) && !Decisive(m)
    ensures var l := [m] + log; EndsAt(l, j + 1) && l[j + 1] == log[j] && l[j + 2..] == log[j + 1..]
  {
    var l := [m] + log;
    assert forall i :: 0 < i <= j + 1 ==> l[i] == log[i - 1];
  }

  /** What is still to arrive when message `k` has been taken out. */
  function Pending(arrivals: seq<seq<Message>>, k: nat): seq<seq<Message>> {
    if k < |arrivals| then arrivals[k + 1..] else []
  }

  lemma PendingLater(arrivals: seq<seq<Message>>, k: nat)
    ensures Pending(arrivals, k + 1) == Pending(Later(arrivals), k)
  {}

  /** Messages that arrive one by one before any decisive one go round together:
      they need not stay in the order in which they arrived. */
  lemma RoundAgain(x: Message, y: Message, e: Message)
    requires !Decisive(x) && !Decisive(y) && Decisive(e)
    ensures Awaited([], [[x], [y], [e]]) && Ended([], [[x], [y], [e]]) == End(e, [y, x], [])
  {
    hide Ended, Awaited, First, FirstOf, Concat, Decisive;
    AwaitedThree(x, y, e);
    EndedStep([], [[x], [y], [e]], x, [], [x], [[y], [e]]);
    EndedStep([x], [[y], [e]], x, [y], [y, x], [[e]]);
    EndedStep([y, x], [[e]], y, [x, e], [x, e, y], []);
    EndedStep([x, e, y], [], x, [e, y], [e, y, x], []);
    EndedNow([e, y, x], e, [y, x]);
  }

  lemma AwaitedThree(x: Message, y: Message, e: Message)
    requires !Decisive(x) && !Decisive(y) && Decisive(e)
    ensures Awaited([], [[x], [y], [e]])
  {
    assert EndsAt([x, y, e], 2);
    EndsFirst([x, y, e], 2);
    ConcatStep([[x], [y], [e]]);
    ConcatStep([[y], [e]]);
    ConcatStep([[e]]);
    assert Concat([[x], [y], [e]]) == [x, y, e];
    assert [] + [x, y, e] == [x, y, e];
  }

  lemma EndedStep(q: seq<Message>, arrivals: seq<seq<Message>>, m: Message, tail: seq<Message>,
                  next: seq<Message>, later: seq<seq<Message>>)
    requires Awaited(q, arrivals) && !Decisive(m)
    requires q + Batch(arrivals) == [m] + tail && next == tail + [m] && later == Later(arrivals)
    ensures Awaited(next, later) && Ended(q, arrivals) == Ended(next, later)
  {
    assert (q + Batch(arrivals))[1..] == tail;
    PutBack(q, arrivals);
  }

  lemma EndedNow(q: seq<Message>, e: Message, tail: seq<Message>)
    requires Awaited(q, []) && Decisive(e) && q == [e] + tail
    ensures Ended(q, []) == End(e, tail, [])
  {
    assert (q + [])[1..] == tail;
  }

  /** The wait loses and duplicates nothing, except that it drops a session
      message that it can not read. */
  lemma NothingLost(q: seq<Message>, arrivals: seq<seq<Message>>)
    requires Awaited(q, arrivals)
    ensures var e := Ended(q, arrivals);
      var back := if e.message.kind == SessionEnd then [e.message] else [];
      var data := if e.message.kind == Data || e.message.kind == Object then [e.message] else [];
      var kept := multiset(e.queue + back) + multiset(data) + multiset(Concat(e.pending));
      kept == multiset(q) + multiset(Concat(arrivals)) <==> e.message.kind != Unreadable
  {
    EndedKeeps(q, arrivals);
    EndedFirst(q, arrivals);
    Kept(Ended(q, arrivals), multiset(q) + multiset(Concat(arrivals)));
  }

  lemma Kept(e: End, all: multiset<Message>)
    requires Decisive(e.message) && multiset(e.queue) + multiset{e.message} + multiset(Concat(e.pending)) == all
    ensures var back := if e.message.kind == SessionEnd then [e.message] else [];
      var data := if e.message.kind == Data || e.message.kind == Object then [e.message] else [];
      multiset(e.queue + back) + multiset(data) + multiset(Concat(e.pending)) == all <==> e.message.kind != Unreadable
  {
    assert multiset(e.queue + [e.message]) == multiset(e.queue) + multiset{e.message};
    if e.message.kind == Unreadable {
      assert |all| == |multiset(e.queue)| + 1 + |multiset(Concat(e.pending))|;
      assert |multiset(e.queue) + multiset(Concat(e.pending))| == |multiset(e.queue)| + |multiset(Concat(e.pending))|;
    }
  }

  /** A queue that is open gets a message that ends the wait. */
  predicate Ready(queue: MessageQueue?, arrivals: seq<seq<Message>>)
    reads queue
  {
    queue != null && queue.active ==> Awaited(queue.items, arrivals)
  }

  /** The first such message is data. */
  predicate Coming(queue: MessageQueue?, arrivals: seq<seq<Message>>)
    requires Ready(queue, arrivals)
    reads queue
  {
    queue != null && queue.active &&
    (Ended(queue.items, arrivals).message.kind == Data || Ended(queue.items, arrivals).message.kind == Object)
  }

  class WaitingDriver {
    var fragment: MessageBlock?
    var fragmentCount: nat
    var finished: bool
    var messageQueue: MessageQueue?

    /** parse starts with its first fragment */
    constructor (f: MessageBlock?, q: MessageQueue?)
      ensures fragment == f && messageQueue == q && !finished && fragmentCount == 1
    {
      fragment, messageQueue, finished, fragmentCount := f, q, false, 1;
    }

    /** The loop of wait: the data that ends it, if that is what ends it. */
    method Rotate(queue: MessageQueue, arrivals: seq<seq<Message>>) returns (data: Option<Message>)
      requires queue.active ==> Awaited(queue.items, arrivals)
      modifies queue`items, this`finished
      ensures !queue.active ==> data == None && queue.items == old(queue.items) && finished == old(finished)
      ensures queue.active ==>
        var e := Ended(old(queue.items), arrivals);
        && data == (if e.message.kind == Data || e.message.kind == Object then Some(e.message) else None)
        && queue.items == (if e.message.kind == SessionEnd then e.queue + [e.message] else e.queue)
        && finished == (old(finished) || e.message.kind == SessionEnd)
      ensures queue.active && arrivals == [] ==>
        forall i: nat :: EndsAt(old(queue.items), i) ==>
          var q := old(queue.items);
          queue.items == q[i + 1..] + q[..i] + if q[i].kind == SessionEnd then [q[i]] else []
    {
      ghost var was := queue.items;
      if queue.active && arrivals == [] {
        forall i: nat | EndsAt(was, i)
          ensures Ended(was, []).message == was[i] && Ended(was, []).queue == was[i + 1..] + was[..i]
        {
          QuietEnd(was, i);
        }
      }

      var rest := arrivals;
      while true
        invariant queue.active ==>
          Awaited(queue.items, rest) && Ended(queue.items, rest) == Ended(old(queue.items), arrivals)
        invariant !queue.active ==> queue.items == old(queue.items)
        invariant finished == old(finished)
        decreases queue.active, |rest|, First(queue.items)
      {
        ghost var q, before := queue.items, rest;
        data := queue.DequeueHead(Batch(rest));
        rest := Later(rest);
        if data == None {
          return;
        }
        var m := data.value;
        if m.kind == Data || m.kind == Object {
          return;
        }
        data := None;
        if m.kind == Unreadable {
          return;
        }
        var done := false;
        if m.kind == SessionEnd {
          finished := true;
          done := true;
        }
        var _ := queue.EnqueueTail(m);
        if done {
          return;
        }
        PutBack(q, before);
      }
    }

    /** wait: `s` and `c` are the fragments so far, `u` and `e` those of the data. */
    method Wait(arrivals: seq<seq<Message>>, ghost s: seq<MessageBlock>, ghost c: seq<seq<Byte>>,
                ghost u: seq<MessageBlock>, ghost e: seq<seq<Byte>>)
      requires Ready(messageQueue, arrivals) && Chain(fragment, s, c)
      requires Coming(messageQueue, arrivals) ==>
        Chain(Ended(messageQueue.items, arrivals).message.block, u, e) && forall b :: b in s ==> b !in u
      modifies this`fragment, this`finished, if messageQueue == null then {} else {messageQueue}, (set b | b in s)`cont
      ensures messageQueue == null || !messageQueue.active ==>
        Chain(fragment, s, c) && fragment == old(fragment) && finished == old(finished)
      ensures messageQueue != null ==> messageQueue.active == old(messageQueue.active)
      ensures messageQueue != null && messageQueue.active ==>
        var d := Ended(old(messageQueue.items), arrivals);
        && messageQueue.items == (if d.message.kind == SessionEnd then d.queue + [d.message] else d.queue)
        && finished == (old(finished) || d.message.kind == SessionEnd)
        && (if d.message.kind == Data || d.message.kind == Object then Chain(fragment, s + u, c + e)
          else Chain(fragment, s, c) && fragment == old(fragment))
      ensures messageQueue != null && messageQueue.active && arrivals == [] ==>
        forall i: nat :: EndsAt(old(messageQueue.items), i) ==>
          var q := old(messageQueue.items);
          messageQueue.items == q[i + 1..] + q[..i] + if q[i].kind == SessionEnd then [q[i]] else []
    {
      hide Chain, Ended, Awaited, EndsAt;
      if messageQueue == null {
        return;
      }
      var data := Rotate(messageQueue, arrivals);
      if data != None {
        AppendFragment(data.value.block, s, c, u, e);
      }
    }

    /** The data becomes the last fragment. */
    method AppendFragment(block: MessageBlock, ghost s: seq<MessageBlock>, ghost c: seq<seq<Byte>>,
                          ghost u: seq<MessageBlock>, ghost e: seq<seq<Byte>>)
      requires Chain(fragment, s, c) && Chain(block, u, e) && forall b :: b in s ==> b !in u
      modifies this`fragment, (set b | b in s)`cont
      ensures Chain(fragment, s + u, c + e)
    {
      if fragment != null {
        Append(fragment, block, s, c, u, e);
      } else {
        assert s + u == u && c + e == e;
        fragment := block;
      }
    }

    /** Waiting behind the last fragment. */
    method WaitForNext(arrivals: seq<seq<Message>>, ghost s: seq<MessageBlock>, ghost c: seq<seq<Byte>>,
                       ghost u: seq<MessageBlock>, ghost e: seq<seq<Byte>>)
      requires Ready(messageQueue, arrivals) && fragment != null && Chain(fragment, s, c) && |s| == 1
      requires Coming(messageQueue, arrivals) ==>
        Chain(Ended(messageQueue.items, arrivals).message.block, u, e) && forall b :: b in s ==> b !in u
      modifies this`fragment, this`finished, if messageQueue == null then {} else {messageQueue}, (set b | b in s)`cont
      ensures fragment == old(fragment)
      ensures if old(Coming(messageQueue, arrivals)) then fragment.cont != null && Chain(fragment.cont, u, e)
        else fragment.cont == null
    {
      ghost var data := Coming(messageQueue, arrivals);
      hide Chain, Ended, Awaited;
      Wait(arrivals, s, c, u, e);
      if data {
        AheadJoined(fragment, s, c, u, e);
      } else {
        Ahead(fragment, s, c);
      }
    }

    /** switchBuffer: on to the next fragment, for which it waits if it has to;
        `begins` is whether the scanner takes it. */
    method SwitchBuffer(next: MessageBlock?, begins: bool, arrivals: seq<seq<Message>>, ghost s: seq<MessageBlock>,
                        ghost c: seq<seq<Byte>>, ghost u: seq<MessageBlock>, ghost e: seq<seq<Byte>>) returns (ok: bool)
      requires fragment != null && Chain(fragment, s, c)
      requires next == null && |s| == 1 ==> Ready(messageQueue, arrivals)
      requires next == null && |s| == 1 && Coming(messageQueue, arrivals) ==>
        Chain(Ended(messageQueue.items, arrivals).message.block, u, e) && forall b :: b in s ==> b !in u
      modifies this`fragment, this`finished, this`fragmentCount
      modifies if messageQueue == null then {} else {messageQueue}, (set b | b in s)`cont
      ensures fragmentCount == old(fragmentCount) + if ok then 1 else 0
      ensures next != null ==> fragment == next && ok == begins
      ensures next == null && |s| > 1 ==> Chain(fragment, s[1..], c[1..]) && ok == begins
      ensures next == null && |s| == 1 && old(Coming(messageQueue, arrivals)) ==> Chain(fragment, u, e) && ok == begins
      ensures next == null && |s| == 1 && !old(Coming(messageQueue, arrivals)) ==> fragment == old(fragment) && !ok
    {
      if next != null {
        fragment := next;
      } else {
        Ahead(fragment, s, c);
        hide Chain, Ready, Coming, Ended;
        if fragment.cont == null {
          WaitForNext(arrivals, s, c, u, e);
        }
        if fragment.cont == null {
          return false;
        }
        fragment := fragment.cont;
      }
      if !begins {
        return false;
      }
      fragmentCount := fragmentCount + 1;
      return true;
    }
  }

  lemma Ahead(p: MessageBlock, s: seq<MessageBlock>, c: seq<seq<Byte>>)
    requires Chain(p, s, c)
    ensures |s| == |c| > 0 && Chain(p.cont, s[1..], c[1..]) && (p.cont == null <==> |s| == 1)
  {
    Parted(s, 1);
    HoldPart(s, c, 1);
  }

  lemma AheadJoined(p: MessageBlock, s: seq<MessageBlock>, c: seq<seq<Byte>>, u: seq<MessageBlock>, e: seq<seq<Byte>>)
    requires |s| == |c| == 1 && |u| > 0 && Chain(p, s + u, c + e)
    ensures p.cont != null && Chain(p.cont, u, e)
  {
    Ahead(p, s + u, c + e);
    assert (s + u)[1..] == u && (c + e)[1..] == e;
  }
}
