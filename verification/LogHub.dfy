/** Fan-out of log lines: a bounded replay buffer and bounded subscriber queues. */
module LogHub {
  import opened Sequences
  import opened Wrappers

  const CAPACITY := 1000

  /** What a bounded deque keeps of a sequence. */
  function Last(s: seq<string>, n: nat): seq<string> {
    if |s| <= n then s else s[|s| - n..]
  }

  lemma LastAppend(s: seq<string>, line: string, n: nat)
    ensures Last(Last(s, n) + [line], n) == Last(s + [line], n)
  {
  }

  // ---------- the hub as a class ----------

  function Others(subs: seq<nat>, q: nat): seq<nat> {
    if subs == [] then []
    else (if subs[0] == q then [] else [subs[0]]) + Others(subs[1..], q)
  }

  lemma {:induction false} OthersMean(subs: seq<nat>, q: nat)
    ensures forall r :: r in Others(subs, q) <==> r in subs && r != q
    ensures HasNoDuplicates(subs) ==> HasNoDuplicates(Others(subs, q))
  {
    if subs != [] {
      var rest := Others(subs[1..], q);
      OthersMean(subs[1..], q);
      assert subs == [subs[0]] + subs[1..];
      if HasNoDuplicates(subs) && subs[0] != q {
        forall r | r in rest ensures r != subs[0] {
          assert r in subs[1..];
          var j :| 0 <= j < |subs| - 1 && subs[1..][j] == r;
          assert subs[j + 1] == r;
        }
        assert forall i | 0 <= i < |rest| :: rest[i] in rest;
      }
    }
  }

  class LogHub {
    const bufferSize: nat
    var buffers: map<string, seq<string>>
    var subscribers: map<string, seq<nat>>
    var queues: map<nat, seq<string>>

    /** Every subscriber of a job has one queue and is listed once. */
    ghost predicate Valid()
      reads this
    {
      forall job | job in subscribers ::
        subscribers[job] != [] && HasNoDuplicates(subscribers[job]) && forall q | q in subscribers[job] :: q in queues
    }

    function Subscribers(job: string): seq<nat>
      reads this
    {
      if job in subscribers then subscribers[job] else []
    }

    function Buffered(job: string): seq<string>
      reads this
    {
      if job in buffers then buffers[job] else []
    }

    constructor (size: nat)
      ensures Valid() && bufferSize == size && buffers == map[] && subscribers == map[] && queues == map[]
    {
      bufferSize := size;
      buffers, subscribers, queues := map[], map[], map[];
    }

    method Publish(job: string, line: string)
      requires Valid()
      modifies this`buffers, this`queues
      ensures Valid()
      ensures buffers == old(buffers)[job := Last(old(Buffered(job)) + [line], bufferSize)]
      ensures queues.Keys == old(queues).Keys
      ensures forall q | q in queues ::
                queues[q] == if q in Subscribers(job) && |old(queues)[q]| < 1000 then old(queues)[q] + [line] else old(queues)[q]
    {
      buffers := buffers[job := Last(Buffered(job) + [line], bufferSize)];
      var subs := Subscribers(job);
      for i := 0 to |subs|
        invariant queues.Keys == old(queues).Keys
        invariant buffers == old(buffers)[job := Last(old(Buffered(job)) + [line], bufferSize)]
        invariant forall q | q in queues ::
                    queues[q] == if q in subs[..i] && |old(queues)[q]| < 1000 then old(queues)[q] + [line] else old(queues)[q]
      {
        assert subs[..i + 1] == subs[..i] + [subs[i]];
        assert subs[i] in subs;
        if |queues[subs[i]]| < CAPACITY {
          queues := queues[subs[i] := queues[subs[i]] + [line]];
        }
      }
      assert subs[..|subs|] == subs;
    }

    method Subscribe(job: string, q: nat, replayBuffer: bool) returns (replay: seq<string>)
      requires Valid() && q !in queues
      modifies this`subscribers, this`queues
      ensures Valid()
      ensures subscribers == old(subscribers)[job := old(Subscribers(job)) + [q]]
      ensures queues == old(queues)[q := []]
      ensures replay == if replayBuffer then Buffered(job) else []
    {
      queues := queues[q := []];
      subscribers := subscribers[job := Subscribers(job) + [q]];
      replay := if replayBuffer then Buffered(job) else [];
    }

    /** Releases memory when the last subscriber of the job has gone. */
    method Unsubscribe(job: string, q: nat) returns (released: bool)
      requires Valid()
      modifies this`subscribers
      ensures Valid()
      ensures Subscribers(job) == Others(old(Subscribers(job)), q)
      ensures released <==> old(Subscribers(job)) != [] && Subscribers(job) == []
      ensures forall other | other != job :: (other in subscribers <==> other in old(subscribers)) && Subscribers(other) == old(Subscribers(other))
    {
      released := false;
      if Subscribers(job) == [] {
        return;
      }
      var rest := Others(subscribers[job], q);
      OthersMean(subscribers[job], q);
      if rest == [] {
        subscribers := subscribers - {job};
        released := true;
      } else {
        subscribers := subscribers[job := rest];
      }
    }
  }

  // ---------- interleaved publishers and subscribers of one job ----------

  /** A subscriber: what it got when it subscribed, how many lines had been published then and
      when it left, and the lines by number that were put into its queue or dropped. */
  datatype Queue = Queue(replay: seq<string>, since: nat, until: Option<nat>, received: seq<nat>, dropped: set<nat>, taken: nat)

  /** A publisher that has left the lock and still has to put this line into this queue. */
  datatype Parcel = Parcel(line: nat, queue: nat)

  datatype Hub = Hub(size: nat, published: seq<string>, buffer: seq<string>, subscribers: seq<nat>, queues: seq<Queue>,
                     pending: set<Parcel>)

  datatype Step = Publish(text: string) | Deliver(parcel: Parcel) | Subscribe(replayBuffer: bool) | Unsubscribe(q: nat) | Take(q: nat)

  predicate Enabled(s: Hub, step: Step) {
    match step
    case Publish(_) => true
    case Deliver(p) => p in s.pending && p.queue < |s.queues|
    case Subscribe(_) => true
    case Unsubscribe(_) => true
    case Take(q) => q < |s.queues| && s.queues[q].taken < |s.queues[q].received|
  }

  function Delivered(q: Queue, line: nat): Queue {
    if |q.received| - q.taken < CAPACITY then q.(received := q.received + [line]) else q.(dropped := q.dropped + {line})
  }

  function Left(q: Queue, now: nat): Queue {
    if q.until.None? then q.(until := Some(now)) else q
  }

  function Next(s: Hub, step: Step): Hub
    requires Enabled(s, step)
  {
    match step
    case Publish(text) =>
      s.(published := s.published + [text], buffer := Last(s.buffer + [text], s.size),
         pending := s.pending + set q | q in s.subscribers :: Parcel(|s.published|, q))
    case Deliver(p) =>
      s.(queues := s.queues[p.queue := Delivered(s.queues[p.queue], p.line)], pending := s.pending - {p})
    case Subscribe(replayBuffer) =>
      s.(subscribers := s.subscribers + [|s.queues|],
         queues := s.queues + [Queue(if replayBuffer then s.buffer else [], |s.published|, None, [], {}, 0)])
    case Unsubscribe(q) =>
      s.(subscribers := Others(s.subscribers, q),
         queues := if q < |s.queues| then s.queues[q := Left(s.queues[q], |s.published|)] else s.queues)
    case Take(q) =>
      s.(queues := s.queues[q := s.queues[q].(taken := s.queues[q].taken + 1)])
  }

  predicate Runnable(s: Hub, steps: seq<Step>)
    decreases |steps|
  {
    steps == [] || (Enabled(s, steps[0]) && Runnable(Next(s, steps[0]), steps[1..]))
  }

  function Run(s: Hub, steps: seq<Step>): Hub
    requires Runnable(s, steps)
    decreases |steps|
  {
    if steps == [] then s else Run(Next(s, steps[0]), steps[1..])
  }

  predicate IsFresh(s: Hub) {
    s == Hub(s.size, [], [], [], [], {})
  }

  /** The lines that were published while the queue was subscribed. */
  function End(s: Hub, q: Queue): nat {
    match q.until
    case Some(n) => n
    case None => |s.published|
  }

  predicate IsOwed(s: Hub, q: Queue, line: nat) {
    q.since <= line < End(s, q)
  }

  /** Each line that the queue is owed is in exactly one of three places, and no other line is
      in any of them. */
  ghost predicate Accounts(s: Hub, id: nat)
    requires id < |s.queues|
  {
    var q := s.queues[id];
    && (forall k :: IsOwed(s, q, k) <==> k in q.received || k in q.dropped || Parcel(k, id) in s.pending)
    && (forall k :: !(k in q.received && k in q.dropped))
    && (forall k :: Parcel(k, id) in s.pending ==> k !in q.received && k !in q.dropped)
    && HasNoDuplicates(q.received)
  }

  predicate IsReplay(s: Hub, q: Queue) {
    q.since <= |s.published| && (q.replay == [] || q.replay == Last(s.published[..q.since], s.size))
  }

  ghost predicate QueueHolds(s: Hub, id: nat)
    requires id < |s.queues|
  {
    var q := s.queues[id];
    && Accounts(s, id) && IsReplay(s, q)
    && q.since <= End(s, q) <= |s.published|
    && q.taken <= |q.received| <= q.taken + CAPACITY
    && (id in s.subscribers <==> q.until.None?)
  }

  ghost predicate Inv(s: Hub) {
    && s.buffer == Last(s.published, s.size)
    && (forall id | id in s.subscribers :: id < |s.queues|)
    && (forall p | p in s.pending :: p.queue < |s.queues| && p.line < |s.published|)
    && (forall id | 0 <= id < |s.queues| :: QueueHolds(s, id))
  }

  lemma EqualQueue(s: Hub, t: Hub, id: nat)
    requires id < |s.queues| && id < |t.queues| && t.queues[id] == s.queues[id]
    requires t.published == s.published && t.size == s.size && (id in t.subscribers <==> id in s.subscribers)
    requires forall k :: Parcel(k, id) in t.pending <==> Parcel(k, id) in s.pending
    requires QueueHolds(s, id)
    ensures QueueHolds(t, id)
  {
    hide Last;
    var q := s.queues[id];
    assert forall k :: IsOwed(t, q, k) <==> IsOwed(s, q, k);
  }

  lemma PublishKeeps(s: Hub, text: string)
    requires Inv(s)
    ensures Inv(Next(s, Publish(text)))
  {
    hide QueueHolds;
    var t := Next(s, Publish(text));
    LastAppend(s.published, text, s.size);
    forall id | 0 <= id < |t.queues| ensures QueueHolds(t, id) {
      PublishKeepsQueue(s, text, id);
    }
    forall p | p in t.pending ensures p.queue < |t.queues| && p.line < |t.published| {
    }
  }

  lemma PublishKeepsQueue(s: Hub, text: string, id: nat)
    requires id < |s.queues| && QueueHolds(s, id)
    requires forall p | p in s.pending :: p.line < |s.published|
    ensures QueueHolds(Next(s, Publish(text)), id)
  {
    hide Last;
    var t, q, n := Next(s, Publish(text)), s.queues[id], |s.published|;
    assert t.published[..q.since] == s.published[..q.since];
    assert Parcel(n, id) in t.pending <==> id in s.subscribers;
    assert forall k :: k != n ==> (Parcel(k, id) in t.pending <==> Parcel(k, id) in s.pending);
    assert forall k :: k != n ==> (IsOwed(t, q, k) <==> IsOwed(s, q, k));
    assert !IsOwed(s, q, n);
  }

  lemma DeliverKeepsQueue(s: Hub, p: Parcel)
    requires Enabled(s, Deliver(p)) && QueueHolds(s, p.queue)
    ensures QueueHolds(Next(s, Deliver(p)), p.queue)
  {
    hide Last;
    var t := Next(s, Deliver(p));
    var q, r := s.queues[p.queue], t.queues[p.queue];
    assert forall k :: IsOwed(t, r, k) <==> IsOwed(s, q, k);
    assert forall k :: k in r.received <==> k in q.received || (r.received != q.received && k == p.line);
  }

  lemma DeliverKeeps(s: Hub, p: Parcel)
    requires Inv(s) && Enabled(s, Deliver(p))
    ensures Inv(Next(s, Deliver(p)))
  {
    hide QueueHolds;
    var t := Next(s, Deliver(p));
    forall id | 0 <= id < |t.queues| ensures QueueHolds(t, id) {
      if id == p.queue { DeliverKeepsQueue(s, p); } else { EqualQueue(s, t, id); }
    }
  }

  lemma SubscribeKeeps(s: Hub, replayBuffer: bool)
    requires Inv(s)
    ensures Inv(Next(s, Subscribe(replayBuffer)))
  {
    hide QueueHolds;
    var t, n := Next(s, Subscribe(replayBuffer)), |s.queues|;
    forall id | 0 <= id < |t.queues| ensures QueueHolds(t, id) {
      if id == n { NewQueueHolds(s, replayBuffer); } else { EqualQueue(s, t, id); }
    }
  }

  lemma NewQueueHolds(s: Hub, replayBuffer: bool)
    requires s.buffer == Last(s.published, s.size)
    requires forall p | p in s.pending :: p.queue < |s.queues|
    ensures QueueHolds(Next(s, Subscribe(replayBuffer)), |s.queues|)
  {
    hide Last;
    assert s.published[..|s.published|] == s.published;
  }

  lemma UnsubscribeKeeps(s: Hub, q: nat)
    requires Inv(s)
    ensures Inv(Next(s, Unsubscribe(q)))
  {
    hide QueueHolds;
    var t := Next(s, Unsubscribe(q));
    OthersMean(s.subscribers, q);
    forall id | 0 <= id < |t.queues| ensures QueueHolds(t, id) {
      if id == q { LeavingHolds(s, q); } else { EqualQueue(s, t, id); }
    }
  }

  lemma LeavingHolds(s: Hub, q: nat)
    requires q < |s.queues| && QueueHolds(s, q)
    ensures QueueHolds(Next(s, Unsubscribe(q)), q)
  {
    hide Last;
    OthersMean(s.subscribers, q);
    var t := Next(s, Unsubscribe(q));
    assert forall k :: IsOwed(t, t.queues[q], k) <==> IsOwed(s, s.queues[q], k);
  }

  lemma TakeKeeps(s: Hub, q: nat)
    requires Inv(s) && Enabled(s, Take(q))
    ensures Inv(Next(s, Take(q)))
  {
    hide QueueHolds;
    var t := Next(s, Take(q));
    forall id | 0 <= id < |t.queues| ensures QueueHolds(t, id) {
      if id == q { TakingHolds(s, q); } else { EqualQueue(s, t, id); }
    }
  }

  lemma TakingHolds(s: Hub, q: nat)
    requires Enabled(s, Take(q)) && QueueHolds(s, q)
    ensures QueueHolds(Next(s, Take(q)), q)
  {
    hide Last;
    var t := Next(s, Take(q));
    assert forall k :: IsOwed(t, t.queues[q], k) <==> IsOwed(s, s.queues[q], k);
  }

  lemma StepKeeps(s: Hub, step: Step)
    requires Inv(s) && Enabled(s, step)
    ensures Inv(Next(s, step)) && Next(s, step).size == s.size
  {
    hide Inv;
    match step
    case Publish(text) => PublishKeeps(s, text);
    case Deliver(p) => DeliverKeeps(s, p);
    case Subscribe(replayBuffer) => SubscribeKeeps(s, replayBuffer);
    case Unsubscribe(q) => UnsubscribeKeeps(s, q);
    case Take(q) => TakeKeeps(s, q);
  }

  lemma {:induction false} RunKeeps(s: Hub, steps: seq<Step>)
    requires Inv(s) && Runnable(s, steps)
    ensures Inv(Run(s, steps)) && Run(s, steps).size == s.size
    decreases |steps|
  {
    hide Inv;
    if steps != [] {
      StepKeeps(s, steps[0]);
      RunKeeps(Next(s, steps[0]), steps[1..]);
    }
  }

  // ---------- what a subscriber sees ----------

  function Span(from: nat, end: nat): (s: seq<nat>)
    requires from <= end
    ensures |s| == end - from && forall i | 0 <= i < |s| :: s[i] == from + i
    decreases end - from
  {
    if from == end then [] else [from] + Span(from + 1, end)
  }

  predicate AreIn(lines: seq<nat>, published: seq<string>) {
    forall i | 0 <= i < |lines| :: lines[i] < |published|
  }

  /** The lines with these numbers. */
  function Texts(published: seq<string>, lines: seq<nat>): seq<string>
    requires AreIn(lines, published)
  {
    if lines == [] then [] else [published[lines[0]]] + Texts(published, lines[1..])
  }

  lemma {:induction false} TextsOfSpan(published: seq<string>, from: nat, end: nat)
    requires from <= end <= |published|
    ensures Texts(published, Span(from, end)) == published[from..end]
    decreases end - from
  {
    if from < end {
      assert Span(from, end)[1..] == Span(from + 1, end);
      TextsOfSpan(published, from + 1, end);
    }
  }

  lemma {:induction false} CountDistinct(s: seq<nat>, k: nat)
    requires HasNoDuplicates(s)
    ensures multiset(s)[k] == if k in s then 1 else 0
  {
    if s != [] {
      CountDistinct(s[1..], k);
      assert s == [s[0]] + s[1..];
      assert forall j | 0 <= j < |s| - 1 :: s[1..][j] == s[j + 1] && s[j + 1] != s[0];
      assert s[0] !in s[1..];
    }
  }

  lemma SameElements(a: seq<nat>, b: seq<nat>)
    requires HasNoDuplicates(a) && HasNoDuplicates(b) && forall k :: k in a <==> k in b
    ensures multiset(a) == multiset(b)
  {
    forall k ensures multiset(a)[k] == multiset(b)[k] {
      CountDistinct(a, k);
      CountDistinct(b, k);
    }
  }

  lemma {:induction false} TextsSplit(published: seq<string>, a: seq<nat>, b: seq<nat>)
    requires AreIn(a, published) && AreIn(b, published)
    ensures Texts(published, a + b) == Texts(published, a) + Texts(published, b)
  {
    if a == [] {
      assert a + b == b;
    } else {
      assert (a + b)[1..] == a[1..] + b;
      TextsSplit(published, a[1..], b);
    }
  }

  lemma TextsWithout(published: seq<string>, a: seq<nat>, j: nat)
    requires j < |a| && AreIn(a, published)
    ensures AreIn(Without(a, j), published)
    ensures multiset(Texts(published, a)) == multiset(Texts(published, Without(a, j))) + multiset{published[a[j]]}
  {
    var front, back := a[..j], a[j + 1..];
    var rest := [a[j]] + back;
    assert a == front + rest && rest[1..] == back;
    TextsSplit(published, front, rest);
    TextsSplit(published, front, back);
    assert Texts(published, rest) == [published[a[j]]] + Texts(published, back);
  }

  /** The texts depend on the numbers only as a collection. */
  lemma {:induction false} TextsOfSame(published: seq<string>, a: seq<nat>, b: seq<nat>)
    requires multiset(a) == multiset(b) && AreIn(a, published) && AreIn(b, published)
    ensures multiset(Texts(published, a)) == multiset(Texts(published, b))
    decreases |a|
  {
    hide Texts, Without;
    if a == [] {
      assert |multiset(b)| == 0;
      assert b == [];
    } else {
      assert a[0] in multiset(a) && a[0] in b;
      var j :| 0 <= j < |b| && b[j] == a[0];
      TextsWithout(published, a, 0);
      TextsWithout(published, b, j);
      WithoutLess(a, 0);
      WithoutLess(b, j);
      TextsOfSame(published, Without(a, 0), Without(b, j));
    }
  }

  ghost predicate IsCaughtUp(s: Hub, id: nat)
    requires id < |s.queues|
  {
    s.queues[id].dropped == {} && forall k :: Parcel(k, id) !in s.pending
  }

  lemma ReceivedArePublished(s: Hub, id: nat)
    requires id < |s.queues| && QueueHolds(s, id)
    ensures AreIn(s.queues[id].received, s.published)
  {
    var received := s.queues[id].received;
    forall i | 0 <= i < |received| ensures received[i] < |s.published| {
      assert received[i] in received;
      assert IsOwed(s, s.queues[id], received[i]);
    }
  }

  /** The first line that a subscriber with replay is shown. */
  function ShownFrom(s: Hub, q: Queue): nat {
    if q.since <= s.size then 0 else q.since - s.size
  }

  /** A queue that never was full and has caught up holds every line from its subscription to
      its end exactly once; replay and queue together are the last `size` lines before the
      subscription and all later ones, none missing and none twice. */
  lemma EachLineOnce(s: Hub, id: nat)
    requires Inv(s) && id < |s.queues| && IsCaughtUp(s, id)
    ensures var q := s.queues[id];
            && q.since <= End(s, q) <= |s.published|
            && AreIn(q.received, s.published)
            && multiset(q.received) == multiset(Span(q.since, End(s, q)))
            && (q.replay == Last(s.published[..q.since], s.size) ==>
                  multiset(q.replay + Texts(s.published, q.received)) == multiset(s.published[ShownFrom(s, q)..End(s, q)]))
  {
    hide Inv, Last, Texts;
    InvAt(s, id);
    var q := s.queues[id];
    ReceivedArePublished(s, id);
    var owed := Span(q.since, End(s, q));
    forall k: nat ensures k in q.received <==> k in owed {
      assert IsOwed(s, q, k) <==> k in q.received || k in q.dropped || Parcel(k, id) in s.pending;
      if IsOwed(s, q, k) { assert owed[k - q.since] == k; }
    }
    SameElements(q.received, owed);
    TextsOfSame(s.published, q.received, owed);
    TextsOfSpan(s.published, q.since, End(s, q));
    if q.replay == Last(s.published[..q.since], s.size) {
      ReplayIsSlice(s, q);
      assert s.published[ShownFrom(s, q)..End(s, q)] == q.replay + s.published[q.since..End(s, q)];
    }
  }

  lemma InvAt(s: Hub, id: nat)
    requires Inv(s) && id < |s.queues|
    ensures QueueHolds(s, id)
  {
  }

  lemma ReplayIsSlice(s: Hub, q: Queue)
    requires q.since <= |s.published| && q.replay == Last(s.published[..q.since], s.size)
    ensures q.replay == s.published[ShownFrom(s, q)..q.since]
  {
  }

  /** With a full queue lines are dropped, never duplicated: each number is received at most
      once, and a line that is neither received nor under way was dropped. */
  lemma NeverTwice(s: Hub, id: nat, k: nat)
    requires Inv(s) && id < |s.queues|
    ensures multiset(s.queues[id].received)[k] <= 1
    ensures IsOwed(s, s.queues[id], k) && Parcel(k, id) !in s.pending ==>
              (multiset(s.queues[id].received)[k] == 1 <==> k !in s.queues[id].dropped)
  {
    InvAt(s, id);
    CountDistinct(s.queues[id].received, k);
  }

  // ---------- one publisher ----------

  /** A single publisher puts a line into all queues before it publishes the next one. */
  predicate OnePublisher(s: Hub, steps: seq<Step>)
    requires Runnable(s, steps)
    decreases |steps|
  {
    steps == [] || ((steps[0].Publish? ==> s.pending == {}) && OnePublisher(Next(s, steps[0]), steps[1..]))
  }

  predicate IsAscending(s: seq<nat>) {
    forall i, j | 0 <= i < j < |s| :: s[i] < s[j]
  }

  ghost predicate InOrder(s: Hub) {
    && (forall p | p in s.pending :: p.line + 1 == |s.published|)
    && (forall id | 0 <= id < |s.queues| :: IsAscending(s.queues[id].received))
  }

  lemma OrderStep(s: Hub, step: Step)
    requires Inv(s) && InOrder(s) && Enabled(s, step) && (step.Publish? ==> s.pending == {})
    ensures InOrder(Next(s, step))
  {
    hide Last;
    match step
    case Deliver(p) =>
      InvAt(s, p.queue);
      ReceivedArePublished(s, p.queue);
      var received := s.queues[p.queue].received;
      assert p.line !in received;
      assert forall i | 0 <= i < |received| :: received[i] in received && received[i] < p.line;
    case Publish(_) =>
    case Subscribe(_) =>
    case Unsubscribe(_) =>
    case Take(_) =>
  }

  lemma {:induction false} OrderRun(s: Hub, steps: seq<Step>)
    requires Inv(s) && InOrder(s) && Runnable(s, steps) && OnePublisher(s, steps)
    ensures InOrder(Run(s, steps))
    decreases |steps|
  {
    hide Inv, InOrder;
    if steps != [] {
      OrderStep(s, steps[0]);
      StepKeeps(s, steps[0]);
      OrderRun(Next(s, steps[0]), steps[1..]);
    }
  }

  lemma AscendingFirst(a: seq<nat>, from: nat, end: nat)
    requires from < end && IsAscending(a) && forall k :: k in a <==> from <= k < end
    ensures a != [] && a[0] == from && IsAscending(a[1..])
    ensures forall k :: k in a[1..] <==> from + 1 <= k < end
  {
    assert from in a;
    var j :| 0 <= j < |a| && a[j] == from;
    assert a[0] in a;
    assert j == 0;
    forall k: nat ensures k in a[1..] <==> from + 1 <= k < end {
      assert a == [a[0]] + a[1..];
      assert k in a <==> k == from || k in a[1..];
      if k in a[1..] {
        var m :| 0 <= m < |a| - 1 && a[1..][m] == k;
        assert a[m + 1] == k;
      }
    }
  }

  lemma {:induction false} AscendingSpan(a: seq<nat>, from: nat, end: nat)
    requires from <= end && IsAscending(a) && forall k :: k in a <==> from <= k < end
    ensures a == Span(from, end)
    decreases end - from
  {
    hide IsAscending;
    assert a == [] || a[0] in a;
    if from < end {
      AscendingFirst(a, from, end);
      AscendingSpan(a[1..], from + 1, end);
      assert a == [a[0]] + a[1..];
    }
  }

  lemma FreshHolds(s: Hub)
    requires IsFresh(s)
    ensures Inv(s) && InOrder(s)
  {
  }

  /** Under a single publisher a queue that has caught up holds the lines in the order of
      their publication, and replay and queue together are one stretch of the log. */
  lemma InOrderOfPublication(s: Hub, steps: seq<Step>, id: nat)
    requires IsFresh(s) && Runnable(s, steps) && OnePublisher(s, steps)
    requires id < |Run(s, steps).queues| && IsCaughtUp(Run(s, steps), id)
    ensures var t := Run(s, steps); var q := t.queues[id];
            && q.since <= End(t, q) <= |t.published|
            && AreIn(q.received, t.published) && q.received == Span(q.since, End(t, q))
            && (q.replay == Last(t.published[..q.since], t.size) ==>
                  q.replay + Texts(t.published, q.received) == t.published[ShownFrom(t, q)..End(t, q)])
  {
    hide Last, Run, Runnable, Inv, InOrder, QueueHolds, Texts;
    var t := Run(s, steps);
    var q := t.queues[id];
    FreshHolds(s);
    RunKeeps(s, steps);
    OrderRun(s, steps);
    InvAt(t, id);
    ReceivedArePublished(t, id);
    ReceivedAreOwed(t, id);
    OrderAt(t, id);
    AscendingSpan(q.received, q.since, End(t, q));
    TextsOfSpan(t.published, q.since, End(t, q));
    if q.replay == Last(t.published[..q.since], t.size) {
      ReplayIsSlice(t, q);
    }
  }

  lemma ReceivedAreOwed(s: Hub, id: nat)
    requires id < |s.queues| && QueueHolds(s, id) && IsCaughtUp(s, id)
    ensures var q := s.queues[id];
            q.since <= End(s, q) <= |s.published| && forall k :: k in q.received <==> q.since <= k < End(s, q)
  {
    var q := s.queues[id];
    assert forall k :: IsOwed(s, q, k) <==> k in q.received || k in q.dropped || Parcel(k, id) in s.pending;
  }

  lemma OrderAt(s: Hub, id: nat)
    requires InOrder(s) && id < |s.queues|
    ensures IsAscending(s.queues[id].received)
  {
  }

  // ---------- when lines are dropped ----------

  /** The queue's lines that are not taken yet. */
  function Waiting(s: Hub, id: nat): int
    requires id < |s.queues|
  {
    |s.queues[id].received| - s.queues[id].taken
  }

  /** Whenever the run puts a line into this queue, fewer than 1000 lines wait in it. */
  predicate HasRoom(s: Hub, steps: seq<Step>, id: nat)
    requires Runnable(s, steps)
    decreases |steps|
  {
    steps == []
    || (&& (steps[0].Deliver? && steps[0].parcel.queue == id ==> Waiting(s, id) < 1000)
        && HasRoom(Next(s, steps[0]), steps[1..], id))
  }

  /** Step i of the run delivers this line to a queue in which 1000 lines wait. */
  predicate MeetsFullQueue(s: Hub, steps: seq<Step>, i: nat, id: nat, line: nat)
    requires i < |steps| && Runnable(s, steps[..i])
  {
    var t := Run(s, steps[..i]);
    steps[i] == Deliver(Parcel(line, id)) && id < |t.queues| && Waiting(t, id) == 1000
  }

  lemma {:induction false} RunnablePrefix(s: Hub, steps: seq<Step>, i: nat)
    requires Runnable(s, steps) && i <= |steps|
    ensures Runnable(s, steps[..i])
    ensures i > 0 ==> Runnable(Next(s, steps[0]), steps[1..][..i - 1])
                      && Run(s, steps[..i]) == Run(Next(s, steps[0]), steps[1..][..i - 1])
    decreases |steps|
  {
    if i > 0 {
      assert steps[..i][0] == steps[0] && steps[..i][1..] == steps[1..][..i - 1];
      RunnablePrefix(Next(s, steps[0]), steps[1..], i - 1);
    }
  }

  /** Whether the line was dropped from this queue, which may not exist yet. */
  predicate IsDropped(s: Hub, id: nat, line: nat) {
    id < |s.queues| && line in s.queues[id].dropped
  }

  lemma DropStep(s: Hub, step: Step, id: nat, line: nat)
    requires Inv(s) && Enabled(s, step)
    ensures IsDropped(Next(s, step), id, line) <==>
              IsDropped(s, id, line)
              || (step == Deliver(Parcel(line, id)) && Waiting(s, id) == 1000)
  {
    hide Last, Others, Accounts, IsReplay;
    if step.Deliver? { InvAt(s, step.parcel.queue); }
  }

  /** A line is dropped from a queue exactly if 1000 lines waited in it when it was delivered. */
  lemma {:induction false} DroppedWhenFull(s: Hub, steps: seq<Step>, id: nat, line: nat)
    requires Inv(s) && Runnable(s, steps)
    ensures forall i | 0 <= i <= |steps| :: Runnable(s, steps[..i])
    ensures IsDropped(Run(s, steps), id, line) <==>
              IsDropped(s, id, line) || exists i :: 0 <= i < |steps| && MeetsFullQueue(s, steps, i, id, line)
    decreases |steps|
  {
    hide Inv, Next, IsDropped, Waiting;
    forall i | 0 <= i <= |steps| ensures Runnable(s, steps[..i]) {
      RunnablePrefix(s, steps, i);
    }
    if steps != [] {
      var t, rest := Next(s, steps[0]), steps[1..];
      DropStep(s, steps[0], id, line);
      StepKeeps(s, steps[0]);
      DroppedWhenFull(t, rest, id, line);
      assert Run(s, steps[..0]) == s;
      forall i | 0 <= i < |rest| ensures MeetsFullQueue(s, steps, i + 1, id, line) <==> MeetsFullQueue(t, rest, i, id, line) {
        RunnablePrefix(s, steps, i + 1);
      }
      if exists i :: 0 <= i < |steps| && MeetsFullQueue(s, steps, i, id, line) {
        var i :| 0 <= i < |steps| && MeetsFullQueue(s, steps, i, id, line);
        assert i > 0 ==> MeetsFullQueue(t, rest, i - 1, id, line);
        assert i == 0 ==> Waiting(s, id) == 1000;
      }
      if steps[0] == Deliver(Parcel(line, id)) && Waiting(s, id) == 1000 {
        assert MeetsFullQueue(s, steps, 0, id, line);
      }
    }
  }

  lemma {:induction false} RoomAt(s: Hub, steps: seq<Step>, i: nat, id: nat, line: nat)
    requires Runnable(s, steps) && HasRoom(s, steps, id) && i < |steps| && Runnable(s, steps[..i])
    ensures !MeetsFullQueue(s, steps, i, id, line)
    decreases |steps|
  {
    hide Waiting, Next;
    if i > 0 {
      RunnablePrefix(s, steps, i);
      RoomAt(Next(s, steps[0]), steps[1..], i - 1, id, line);
    }
  }

  lemma RoomDropsNothing(s: Hub, steps: seq<Step>, id: nat)
    requires IsFresh(s) && Runnable(s, steps) && HasRoom(s, steps, id) && id < |Run(s, steps).queues|
    ensures Run(s, steps).queues[id].dropped == {}
  {
    hide Run, Runnable, HasRoom, MeetsFullQueue, Inv;
    FreshHolds(s);
    var dropped := Run(s, steps).queues[id].dropped;
    forall line: nat ensures line !in dropped {
      DroppedWhenFull(s, steps, id, line);
      forall i | 0 <= i < |steps| ensures !MeetsFullQueue(s, steps, i, id, line) {
        RoomAt(s, steps, i, id, line);
      }
    }
    assert forall line | line in dropped :: false;
  }

  /** In a queue that always has room each line that is published between subscribing and
      leaving arrives once and no other line does; from a single publisher they arrive in the
      order of publication, right behind the replay. */
  lemma RoomyQueueGetsAll(s: Hub, steps: seq<Step>, id: nat)
    requires IsFresh(s) && Runnable(s, steps) && HasRoom(s, steps, id) && id < |Run(s, steps).queues|
    requires forall k :: Parcel(k, id) !in Run(s, steps).pending
    ensures var t := Run(s, steps); var q := t.queues[id];
            var end := if q.until.Some? then q.until.value else |t.published|;
            && q.since <= end <= |t.published| && AreIn(q.received, t.published)
            && (forall k :: multiset(q.received)[k] == if q.since <= k < end then 1 else 0)
            && multiset(Texts(t.published, q.received)) == multiset(t.published[q.since..end])
            && (OnePublisher(s, steps) ==> Texts(t.published, q.received) == t.published[q.since..end])
            && (OnePublisher(s, steps) && q.replay == Last(t.published[..q.since], t.size) ==>
                  q.replay + Texts(t.published, q.received) == t.published[ShownFrom(t, q)..end])
  {
    hide Last, Run, Runnable, HasRoom, OnePublisher, Inv, Texts;
    var t := Run(s, steps);
    var q := t.queues[id];
    FreshHolds(s);
    RunKeeps(s, steps);
    RoomDropsNothing(s, steps, id);
    EachLineOnce(t, id);
    var owed := Span(q.since, End(t, q));
    TextsOfSpan(t.published, q.since, End(t, q));
    TextsOfSame(t.published, q.received, owed);
    forall k: nat ensures multiset(q.received)[k] == if q.since <= k < End(t, q) then 1 else 0 {
      NeverTwice(t, id, k);
      assert multiset(owed)[k] > 0 <==> k in owed;
      if q.since <= k < End(t, q) { assert owed[k - q.since] == k; }
    }
    if OnePublisher(s, steps) {
      InOrderOfPublication(s, steps, id);
    }
  }

  // ---------- subscribing and leaving ----------

  /** Published lines stay, and so does what a queue got at its start and end. */
  lemma {:induction false} QueueStays(s: Hub, steps: seq<Step>, id: nat)
    requires Runnable(s, steps) && id < |s.queues|
    ensures var t := Run(s, steps);
            && s.published <= t.published && t.size == s.size && id < |t.queues|
            && t.queues[id].replay == s.queues[id].replay && t.queues[id].since == s.queues[id].since
            && (s.queues[id].until.Some? ==> t.queues[id].until == s.queues[id].until)
    decreases |steps|
  {
    hide Last, Others;
    if steps != [] {
      QueueStays(Next(s, steps[0]), steps[1..], id);
    }
  }

  /** A run is the run of its first steps, the next step, and the run of the others. */
  lemma {:induction false} RunSplits(s: Hub, steps: seq<Step>, i: nat)
    requires Runnable(s, steps) && i < |steps|
    ensures Runnable(s, steps[..i])
    ensures var t := Run(s, steps[..i]);
            && Enabled(t, steps[i]) && Runnable(Next(t, steps[i]), steps[i + 1..])
            && Run(s, steps) == Run(Next(t, steps[i]), steps[i + 1..])
    decreases |steps|
  {
    hide Next, Enabled;
    RunnablePrefix(s, steps, i);
    if i > 0 {
      RunSplits(Next(s, steps[0]), steps[1..], i - 1);
    } else {
      assert Run(s, steps[..0]) == s;
    }
  }

  /** A subscriber that asks for the replay is shown the last `size` lines published before. */
  lemma SubscriberSees(s: Hub, steps: seq<Step>, i: nat)
    requires IsFresh(s) && Runnable(s, steps) && i < |steps| && steps[i].Subscribe?
    ensures Runnable(s, steps[..i])
    ensures var before, t := Run(s, steps[..i]), Run(s, steps);
            var id, n := |before.queues|, |before.published|;
            && before.published <= t.published && id < |t.queues| && t.queues[id].since == n
            && t.queues[id].replay == if !steps[i].replayBuffer then []
                                      else if n <= s.size then before.published
                                      else before.published[n - s.size..]
  {
    hide Run, Runnable, Others;
    RunSplits(s, steps, i);
    FreshHolds(s);
    RunKeeps(s, steps[..i]);
    var before := Run(s, steps[..i]);
    QueueStays(Next(before, steps[i]), steps[i + 1..], |before.queues|);
  }

  /** A subscriber that left receives no line that was published afterwards. */
  lemma LeaverGetsNoMore(s: Hub, steps: seq<Step>, i: nat, id: nat)
    requires IsFresh(s) && Runnable(s, steps) && i < |steps| && steps[i] == Unsubscribe(id)
    ensures Runnable(s, steps[..i])
    ensures var before, t := Run(s, steps[..i]), Run(s, steps);
            id < |before.queues| ==>
              id < |t.queues| && forall line | line in t.queues[id].received :: line < |before.published|
  {
    hide Run, Runnable, Others, Last;
    RunSplits(s, steps, i);
    FreshHolds(s);
    RunKeeps(s, steps[..i]);
    RunKeeps(s, steps);
    var before, t := Run(s, steps[..i]), Run(s, steps);
    if id < |before.queues| {
      InvAt(before, id);
      QueueStays(Next(before, steps[i]), steps[i + 1..], id);
      InvAt(t, id);
      assert forall line | line in t.queues[id].received :: IsOwed(t, t.queues[id], line);
    }
  }

  // ---------- an uninterrupted publish ----------

  lemma {:induction false} DeliverEach(s: Hub, line: nat, targets: seq<nat>) returns (steps: seq<Step>)
    requires HasNoDuplicates(targets) && forall q | q in targets :: Parcel(line, q) in s.pending && q < |s.queues|
    ensures Runnable(s, steps)
    ensures var t := Run(s, steps);
            && t == s.(queues := t.queues, pending := t.pending) && |t.queues| == |s.queues|
            && t.pending == s.pending - (set q | q in targets :: Parcel(line, q))
            && forall id | 0 <= id < |s.queues| ::
                 t.queues[id] == if id in targets then Delivered(s.queues[id], line) else s.queues[id]
    decreases |targets|
  {
    hide Delivered;
    steps := [];
    if targets != [] {
      var q := targets[0];
      var t := Next(s, Deliver(Parcel(line, q)));
      assert targets == [q] + targets[1..];
      assert q !in targets[1..];
      var rest := DeliverEach(t, line, targets[1..]);
      steps := [Deliver(Parcel(line, q))] + rest;
      assert steps[1..] == rest;
    }
  }

  /** What is still in a queue. */
  function Contents(s: Hub, id: nat): seq<string>
    requires id < |s.queues| && s.queues[id].taken <= |s.queues[id].received| && AreIn(s.queues[id].received, s.published)
  {
    Texts(s.published, s.queues[id].received[s.queues[id].taken..])
  }

  lemma {:induction false} TextsLonger(published: seq<string>, line: string, lines: seq<nat>)
    requires AreIn(lines, published)
    ensures Texts(published + [line], lines) == Texts(published, lines) && |Texts(published, lines)| == |lines|
  {
    if lines != [] {
      TextsLonger(published, line, lines[1..]);
    }
  }

  /** A publish that nobody interrupts is a run of the protocol whose effect on buffer and
      queues is the one that `LogHub.Publish` states. */
  lemma PublishAlone(s: Hub, text: string) returns (steps: seq<Step>)
    requires Inv(s) && HasNoDuplicates(s.subscribers)
    ensures Runnable(s, steps)
    ensures var t := Run(s, steps);
            && t.buffer == Last(s.buffer + [text], s.size) && t.subscribers == s.subscribers && |t.queues| == |s.queues|
            && t.published == s.published + [text] && t.pending == s.pending
    ensures var t := Run(s, steps);
            forall id | 0 <= id < |s.queues| ::
              && s.queues[id].taken <= |s.queues[id].received| && AreIn(s.queues[id].received, s.published)
              && t.queues[id].taken <= |t.queues[id].received| && AreIn(t.queues[id].received, t.published)
              && Contents(t, id) == if id in s.subscribers && |Contents(s, id)| < 1000 then Contents(s, id) + [text] else Contents(s, id)
  {
    hide Last, Delivered, Contents, QueueHolds;
    var n, t1 := |s.published|, Next(s, Publish(text));
    var rest := DeliverEach(t1, n, s.subscribers);
    var t := Run(t1, rest);
    steps := [Publish(text)] + rest;
    assert steps[1..] == rest;
    assert t.pending == s.pending by {
      assert forall q | q in s.subscribers :: Parcel(n, q) !in s.pending;
    }
    forall id | 0 <= id < |s.queues|
      ensures && s.queues[id].taken <= |s.queues[id].received| && AreIn(s.queues[id].received, s.published)
              && t.queues[id].taken <= |t.queues[id].received| && AreIn(t.queues[id].received, t.published)
              && Contents(t, id) == if id in s.subscribers && |Contents(s, id)| < 1000 then Contents(s, id) + [text] else Contents(s, id)
    {
      InvAt(s, id);
      ContentsAfter(s, t, id, text);
    }
  }

  lemma ContentsAfter(s: Hub, t: Hub, id: nat, text: string)
    requires id < |s.queues| && id < |t.queues| && QueueHolds(s, id) && t.published == s.published + [text]
    requires t.queues[id] == if id in s.subscribers then Delivered(s.queues[id], |s.published|) else s.queues[id]
    ensures s.queues[id].taken <= |s.queues[id].received| && AreIn(s.queues[id].received, s.published)
    ensures t.queues[id].taken <= |t.queues[id].received| && AreIn(t.queues[id].received, t.published)
    ensures Contents(t, id) == if id in s.subscribers && |Contents(s, id)| < 1000 then Contents(s, id) + [text] else Contents(s, id)
  {
    hide Last, Accounts;
    ReceivedArePublished(s, id);
    var q, r, n := s.queues[id], t.queues[id], |s.published|;
    var left := q.received[q.taken..];
    TextsLonger(s.published, text, left);
    if r.received != q.received {
      assert r.received[r.taken..] == left + [n];
      TextsSplit(t.published, left, [n]);
      assert Texts(t.published, [n]) == [text];
    }
  }
}
