/** The flow-controlled response stream
    (java/client/src/main/java/org/apache/marmotta/cmarmotta/sail/ClosableResponseStream.java).

    gRPC's callback thread delivers a message only against an outstanding request and closes
    the call at most once; the consumer thread calls hasNext() and next(). The step system
    interleaves the two at every point, next() being two steps: it issues a request while it
    still holds the message, then hands the message out. */
module ResponseStream {
  import opened Bytes

  datatype Item<T> = Message(value: T) | End | Error(status: int)

  /** gRPC's status code for success. */
  const OK := 0

  /** ArrayBlockingQueue's capacity. */
  const CAPACITY := 2

  /** `requested` counts requests not yet answered; `inNext` is the point in next() between
      the request and clearing `last`. `delivered` and `returned` record the history. */
  datatype Stream<T> = Stream(
    requested: nat, buffer: seq<Item<T>>, last: Option<Item<T>>, done: bool, inNext: bool,
    delivered: seq<T>, returned: seq<T>)

  datatype Step<T> =
    | OnMessage(msg: T)
    | OnClose(status: int)
    | HasNext
    | NextRequest
    | NextReturn

  /** The constructor starts the call and issues one request. */
  function Opened<T>(): (s: Stream<T>) { Stream(1, [], None, false, false, [], []) }

  /** What gRPC and the consumer's own control flow allow. HasNext blocks on an empty queue.
      next() goes on to its request only after hasNext() has said yes. */
  predicate Enabled<T>(s: Stream<T>, a: Step<T>) {
    match a
    case OnMessage(_) => !s.done && s.requested > 0
    case OnClose(_) => !s.done
    case HasNext => !s.inNext && (s.last.Some? || s.buffer != [])
    case NextRequest => !s.inNext && s.last.Some? && s.last.value.Message?
    case NextReturn => s.inNext && s.last.Some? && s.last.value.Message?
  }

  function Act<T>(s: Stream<T>, a: Step<T>): (r: Stream<T>)
    requires Enabled(s, a)
  {
    match a
    case OnMessage(m) =>
      s.(requested := s.requested - 1, buffer := s.buffer + [Message(m)], delivered := s.delivered + [m])
    case OnClose(status) => s.(buffer := s.buffer + [if status == OK then End else Error(status)], done := true)
    case HasNext => if s.last.Some? then s else s.(last := Some(s.buffer[0]), buffer := s.buffer[1..])
    case NextRequest => s.(requested := s.requested + 1, inNext := true)
    case NextReturn => s.(returned := s.returned + [s.last.value.value], last := None, inNext := false)
  }

  function Messages<T>(items: seq<Item<T>>): (r: seq<T>) {
    if items == [] then []
    else if items[|items| - 1].Message? then Messages(items[..|items| - 1]) + [items[|items| - 1].value]
    else Messages(items[..|items| - 1])
  }

  function Held<T>(s: Stream<T>): (r: seq<T>) {
    if s.last.Some? && s.last.value.Message? then [s.last.value.value] else []
  }

  /** Credit: requests, buffered messages and the held message add up to one, or to two
      inside next(). A close marker is the last thing ever queued. */
  ghost predicate Invariant<T>(s: Stream<T>) {
    && s.requested + |Messages(s.buffer)| + |Held(s)| == (if s.inNext then 2 else 1)
    && (s.inNext ==> |Held(s)| == 1)
    && (forall i | 0 <= i < |s.buffer| - 1 :: s.buffer[i].Message?)
    && (s.done <==> (s.buffer != [] && !s.buffer[|s.buffer| - 1].Message?) || (s.last.Some? && !s.last.value.Message?))
    && (s.last.Some? && !s.last.value.Message? ==> s.buffer == [])
    && s.delivered == s.returned + Held(s) + Messages(s.buffer)
  }

  lemma MessagesSnoc<T>(items: seq<Item<T>>, x: Item<T>)
    ensures Messages(items + [x]) == Messages(items) + (if x.Message? then [x.value] else [])
  {
    assert (items + [x])[..|items|] == items;
  }

  lemma {:induction false} MessagesHead<T>(items: seq<Item<T>>)
    requires items != []
    ensures Messages(items) == (if items[0].Message? then [items[0].value] else []) + Messages(items[1..])
  {
    var n := |items| - 1;
    if n == 0 {
      assert items[1..] == [] && items[..0] == [];
    } else {
      MessagesHead(items[..n]);
      assert items[..n][1..] == items[1..][..n - 1];
      assert items[1..][n - 1] == items[n];
    }
  }

  lemma {:induction false} MessagesCount<T>(items: seq<Item<T>>)
    requires forall i | 0 <= i < |items| :: items[i].Message?
    ensures |Messages(items)| == |items|
  {
    if items != [] { MessagesCount(items[..|items| - 1]); }
  }

  lemma OpenedInvariant<T>()
    ensures Invariant<T>(Opened())
  {
  }

  /** `buffer.add` never finds the queue full: the queue holds at most one message besides
      the close marker when a callback runs, outside next() and inside. */
  lemma NeverOverflows<T>(s: Stream<T>, a: Step<T>)
    requires Invariant(s) && Enabled(s, a)
    ensures |s.buffer| <= CAPACITY && |Messages(s.buffer)| <= 1
    ensures a.OnMessage? || a.OnClose? ==> |s.buffer| < CAPACITY
  {
    if s.buffer != [] { MessagesCount(s.buffer[..|s.buffer| - 1]); }
  }

  lemma MessageKeeps<T>(s: Stream<T>, m: T)
    requires Invariant(s) && Enabled(s, OnMessage(m))
    ensures Invariant(Act(s, OnMessage(m)))
  {
    hide Messages;
    MessagesSnoc(s.buffer, Message(m));
    assert s.returned + Held(s) + Messages(s.buffer) + [m] == s.returned + Held(s) + (Messages(s.buffer) + [m]);
  }

  lemma CloseKeeps<T>(s: Stream<T>, status: int)
    requires Invariant(s) && Enabled(s, OnClose(status))
    ensures Invariant(Act(s, OnClose(status)))
  {
    hide Messages;
    MessagesSnoc(s.buffer, if status == OK then End else Error(status));
    assert Messages(s.buffer) + [] == Messages(s.buffer);
  }

  lemma TakeKeeps<T>(s: Stream<T>)
    requires Invariant(s) && Enabled(s, HasNext) && s.last.None?
    ensures Invariant(Act(s, HasNext))
  {
    var r := Act(s, HasNext);
    MessagesHead(s.buffer);
    assert Messages(s.buffer) == Held(r) + Messages(r.buffer);
    assert s.returned + Held(s) + (Held(r) + Messages(r.buffer)) == s.returned + Held(r) + Messages(r.buffer);
    assert |s.buffer| > 1 ==> s.buffer[0].Message?;
    assert r.buffer != [] ==> r.buffer[|r.buffer| - 1] == s.buffer[|s.buffer| - 1];
  }

  /** Every step of either thread keeps the credit invariant. */
  lemma StepKeeps<T>(s: Stream<T>, a: Step<T>)
    requires Invariant(s) && Enabled(s, a)
    ensures Invariant(Act(s, a))
  {
    match a
    case OnMessage(m) => MessageKeeps(s, m);
    case OnClose(status) => CloseKeeps(s, status);
    case HasNext => if s.last.None? { TakeKeeps(s); }
    case NextRequest =>
    case NextReturn =>
      assert s.returned + Held(s) + Messages(s.buffer) == s.returned + [s.last.value.value] + [] + Messages(s.buffer);
  }

  ghost predicate Legal<T>(run: seq<Step<T>>)
    decreases |run|, 0
  {
    run == [] || (Legal(run[..|run| - 1]) && Enabled(After(run[..|run| - 1]), run[|run| - 1]))
  }

  ghost function After<T>(run: seq<Step<T>>): (s: Stream<T>)
    requires Legal(run)
    decreases |run|, 1
  {
    if run == [] then Opened() else Act(After(run[..|run| - 1]), run[|run| - 1])
  }

  lemma {:induction false} RunKeeps<T>(run: seq<Step<T>>)
    requires Legal(run)
    ensures Invariant(After(run))
  {
    if run == [] {
      OpenedInvariant<T>();
    } else {
      RunKeeps(run[..|run| - 1]);
      StepKeeps(After(run[..|run| - 1]), run[|run| - 1]);
    }
  }

  /** The messages gRPC delivered, in order, as recorded by the run. */
  function Deliveries<T>(run: seq<Step<T>>): (r: seq<T>) {
    if run == [] then []
    else if run[|run| - 1].OnMessage? then Deliveries(run[..|run| - 1]) + [run[|run| - 1].msg]
    else Deliveries(run[..|run| - 1])
  }

  lemma {:induction false} DeliveredIsDeliveries<T>(run: seq<Step<T>>)
    requires Legal(run)
    ensures After(run).delivered == Deliveries(run)
  {
    if run != [] { DeliveredIsDeliveries(run[..|run| - 1]); }
  }

  /** In every run, what next() returned is a prefix of what was delivered, in order, with
      nothing lost or duplicated: the rest is held or queued, at most one message outside
      next() and at most two inside it, the one being returned included. */
  lemma ReturnsPrefix<T>(run: seq<Step<T>>)
    requires Legal(run)
    ensures After(run).returned <= Deliveries(run)
    ensures |Deliveries(run)| - |After(run).returned| <= if After(run).inNext then 2 else 1
  {
    RunKeeps(run);
    DeliveredIsDeliveries(run);
    var s := After(run);
    assert s.delivered == s.returned + (Held(s) + Messages(s.buffer));
  }

  /** Once the consumer has taken the end marker or an error, every message that was delivered
      has been returned. */
  lemma AllReturned<T>(run: seq<Step<T>>)
    requires Legal(run) && After(run).last.Some? && !After(run).last.value.Message?
    ensures After(run).returned == Deliveries(run)
  {
    RunKeeps(run);
    DeliveredIsDeliveries(run);
  }

  /** A consumer that blocks in hasNext() has a request outstanding on a call that is still
      open: it never waits for something it did not ask for. */
  lemma NeverStarves<T>(run: seq<Step<T>>)
    requires Legal(run) && !After(run).inNext && !Enabled(After(run), HasNext)
    ensures After(run).requested == 1 && !After(run).done
    ensures After(run).returned == Deliveries(run)
  {
    RunKeeps(run);
    DeliveredIsDeliveries(run);
  }

  /** Once the consumer has taken the end marker or an error, the state of the consumer
      never changes again: every later hasNext() gives the same outcome and takes nothing. */
  lemma {:induction false} OutcomeIsFinal<T>(run: seq<Step<T>>, n: nat)
    requires Legal(run) && n <= |run| && Legal(run[..n])
    requires After(run[..n]).last.Some? && !After(run[..n]).last.value.Message?
    ensures After(run).last == After(run[..n]).last
    ensures forall i | n <= i < |run| :: run[i].HasNext?
    ensures After(run) == After(run[..n])
    decreases |run|
  {
    if n == |run| {
      assert run[..n] == run;
    } else {
      var m := |run| - 1;
      assert run[..m][..n] == run[..n];
      OutcomeIsFinal(run[..m], n);
      RunKeeps(run[..m]);
      assert After(run[..m]).done;
    }
  }

  /** The status gRPC closed the call with, as recorded by the run. */
  function Outcome<T>(run: seq<Step<T>>): (r: Option<int>) {
    if run == [] then None
    else if run[|run| - 1].OnClose? then Some(run[|run| - 1].status)
    else Outcome(run[..|run| - 1])
  }

  function Closes<T>(run: seq<Step<T>>): (n: nat) {
    if run == [] then 0 else Closes(run[..|run| - 1]) + if run[|run| - 1].OnClose? then 1 else 0
  }

  /** The marker the stream holds, taken or still queued. */
  function Marker<T>(s: Stream<T>): (r: Option<Item<T>>) {
    if s.last.Some? && !s.last.value.Message? then s.last
    else if s.buffer != [] && !s.buffer[|s.buffer| - 1].Message? then Some(s.buffer[|s.buffer| - 1])
    else None
  }

  /** The call is closed at most once, and from then on the stream holds what it was closed
      with: hasNext() reports a normal end exactly if the status was success, and otherwise
      that status. */
  lemma {:induction false} OutcomeIsReported<T>(run: seq<Step<T>>)
    requires Legal(run)
    ensures Marker(After(run)) == Some(End) <==> Outcome(run) == Some(OK)
    ensures forall code | code != OK :: Marker(After(run)) == Some(Error(code)) <==> Outcome(run) == Some(code)
    ensures Marker(After(run)) != Some(Error(OK)) && (Marker(After(run)).Some? <==> Outcome(run).Some?)
    ensures Closes(run) == (if After(run).done then 1 else 0) && (After(run).done <==> Outcome(run).Some?)
  {
    if run != [] {
      var n := |run| - 1;
      OutcomeIsReported(run[..n]);
      RunKeeps(run[..n]);
    }
  }

  /** Two items are enough and needed: a message and the marker behind it fill the queue. */
  lemma CapacityIsNeeded<T>(m: T)
    ensures var run := [OnMessage(m), OnClose(OK)]; Legal(run) && |After(run).buffer| == CAPACITY
  {
    var run := [OnMessage(m), OnClose(OK)];
    assert run[..1] == [OnMessage(m)] && run[..1][..0] == [];
    assert Legal(run[..1]);
  }

  // ---- Callbacks during a call ----

  /** Steps of gRPC's thread that can follow state `s`. */
  ghost predicate Callbacks<T>(s: Stream<T>, callbacks: seq<Step<T>>)
    decreases |callbacks|, 0
  {
    callbacks == [] ||
    var n := |callbacks| - 1;
    && Callbacks(s, callbacks[..n]) && (callbacks[n].OnMessage? || callbacks[n].OnClose?)
    && Enabled(Received(s, callbacks[..n]), callbacks[n])
  }

  ghost function Received<T>(s: Stream<T>, callbacks: seq<Step<T>>): (r: Stream<T>)
    requires Callbacks(s, callbacks)
    decreases |callbacks|, 1
  {
    if callbacks == [] then s
    else Act(Received(s, callbacks[..|callbacks| - 1]), callbacks[|callbacks| - 1])
  }

  lemma {:induction false} CallbacksPrefix<T>(s: Stream<T>, callbacks: seq<Step<T>>, i: nat)
    requires Callbacks(s, callbacks) && i < |callbacks|
    ensures Callbacks(s, callbacks[..i]) && Callbacks(s, callbacks[..i + 1])
    ensures callbacks[i].OnMessage? || callbacks[i].OnClose?
    ensures Enabled(Received(s, callbacks[..i]), callbacks[i])
    ensures Received(s, callbacks[..i + 1]) == Act(Received(s, callbacks[..i]), callbacks[i])
  {
    hide Act, Enabled;
    var n := |callbacks| - 1;
    if i == n {
      assert callbacks[..i + 1] == callbacks;
    } else {
      CallbacksPrefix(s, callbacks[..n], i);
      assert callbacks[..n][..i] == callbacks[..i] && callbacks[..n][..i + 1] == callbacks[..i + 1];
    }
  }

  lemma NothingReceived<T>(s: Stream<T>, callbacks: seq<Step<T>>)
    requires callbacks == []
    ensures Callbacks(s, callbacks) && Received(s, callbacks) == s
  {
  }

  /** Callbacks do not disturb the consumer. */
  lemma {:induction false} CallbacksKeep<T>(s: Stream<T>, callbacks: seq<Step<T>>)
    requires Callbacks(s, callbacks)
    ensures var r := Received(s, callbacks);
            && r.last == s.last && r.inNext == s.inNext && r.returned == s.returned
            && r.delivered == s.delivered + Deliveries(callbacks)
  {
    if callbacks != [] { CallbacksKeep(s, callbacks[..|callbacks| - 1]); }
  }

  // ---- The object ----

  class ClosableResponseStream<T> {
    var requested: nat
    var buffer: seq<Item<T>>
    var last: Option<Item<T>>
    var done: bool
    /** Between the request and the end of next(). */
    ghost var inNext: bool
    ghost var delivered: seq<T>
    ghost var returned: seq<T>

    ghost function State(): (s: Stream<T>)
      reads this
    {
      Stream(requested, buffer, last, done, inNext, delivered, returned)
    }

    ghost predicate Valid()
      reads this
    {
      Invariant(State())
    }

    constructor ()
      ensures Valid() && State() == Opened<T>()
    {
      requested, buffer, last, done := 1, [], None, false;
      inNext, delivered, returned := false, [], [];
      new;
      OpenedInvariant<T>();
    }

    /** QueuingListener.onMessage; `added` is false where buffer.add would throw. */
    method OnMessage(value: T) returns (added: bool)
      requires Valid() && Enabled(State(), Step.OnMessage(value))
      modifies this
      ensures added && Valid() && State() == Act(old(State()), Step.OnMessage(value))
    {
      NeverOverflows(State(), Step.OnMessage(value));
      StepKeeps(State(), Step.OnMessage(value));
      added := |buffer| < CAPACITY;
      requested, buffer, delivered := requested - 1, buffer + [Message(value)], delivered + [value];
    }

    /** QueuingListener.onClose. */
    method OnClose(status: int) returns (added: bool)
      requires Valid() && Enabled(State(), Step.OnClose(status))
      modifies this
      ensures added && Valid() && State() == Act(old(State()), Step.OnClose(status))
    {
      NeverOverflows(State(), Step.OnClose(status));
      StepKeeps(State(), Step.OnClose(status));
      added := |buffer| < CAPACITY;
      if status == OK {
        buffer := buffer + [End];
      } else {
        buffer := buffer + [Error(status)];
      }
      done := true;
    }

    /** hasNext(): true for a message, false at the end, an exception's status otherwise. */
    method HasNext() returns (r: Item<T>)
      requires Valid() && Enabled(State(), Step.HasNext)
      modifies this`last, this`buffer
      ensures Valid() && State() == Act(old(State()), Step.HasNext) && last == Some(r)
    {
      StepKeeps(State(), Step.HasNext);
      if last.None? { last, buffer := Some(buffer[0]), buffer[1..]; }
      r := last.value;
    }

    /** The first half of next(): hasNext() and, if there is a message, the request for
        another. Callbacks may run between the two halves. */
    method BeginNext() returns (more: bool)
      requires Valid() && Enabled(State(), Step.HasNext)
      modifies this
      ensures Valid()
      ensures var s := Act(old(State()), Step.HasNext);
              && more == s.last.value.Message?
              && State() == if more then Act(s, NextRequest) else s
    {
      var item := HasNext();
      more := item.Message?;
      if more {
        StepKeeps(State(), NextRequest);
        requested := requested + 1;
        inNext := true;
      }
    }

    /** The second half: clear `last` and hand the message out. */
    method EndNext() returns (r: T)
      requires Valid() && Enabled(State(), NextReturn)
      modifies this
      ensures Valid() && State() == Act(old(State()), NextReturn) && returned == old(returned) + [r]
    {
      StepKeeps(State(), NextReturn);
      r := last.value.value;
      returned := returned + [r];
      last := None;
      inNext := false;
    }

    /** gRPC's thread runs callbacks. */
    method Receive(callbacks: seq<Step<T>>)
      requires Valid() && Callbacks(State(), callbacks)
      modifies this
      ensures Valid() && State() == Received(old(State()), callbacks)
    {
      hide Invariant, Act, Enabled, Callbacks, Received;
      ghost var start := State();
      NothingReceived(start, callbacks[..0]);
      for i := 0 to |callbacks|
        invariant Valid() && Callbacks(start, callbacks[..i]) && State() == Received(start, callbacks[..i])
      {
        CallbacksPrefix(start, callbacks, i);
        match callbacks[i] {
          case OnMessage(m) => var _ := OnMessage(m);
          case OnClose(status) => var _ := OnClose(status);
          case _ =>
        }
      }
      assert callbacks[..|callbacks|] == callbacks;
    }

    /** next(), `callbacks` being what gRPC's thread does between its request and its return.
        None where the source throws, because there is no message. */
    method Next(callbacks: seq<Step<T>>) returns (r: Option<T>)
      requires Valid() && Enabled(State(), Step.HasNext)
      requires var s := Act(State(), Step.HasNext);
               if s.last.value.Message? then Callbacks(Act(s, NextRequest), callbacks) else callbacks == []
      modifies this
      ensures Valid()
      ensures r.Some? ==> returned == old(returned) + [r.value] && last.None? && requested + |Messages(buffer)| == 1
      ensures r.Some? ==> delivered == old(delivered) + Deliveries(callbacks)
      ensures r.None? ==> returned == old(returned) && delivered == old(delivered) && last.Some? && !last.value.Message?
    {
      var more := BeginNext();
      if !more { return None; }
      ghost var s := State();
      Receive(callbacks);
      CallbacksKeep(s, callbacks);
      var m := EndNext();
      r := Some(m);
    }
  }
}
