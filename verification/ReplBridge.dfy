/**
  The bridge's outbound side. A send reads the connection state and then either goes to the outgoing
  channel or to a bounded buffer; a drain empties the buffer and forwards what it took message by
  message. Sends and drains by different tasks may interleave between those points, the state may
  change at any time, and the channel may close. Messages are numbered in the order their sends began.
*/
module ReplBridge {
  import opened Prelude

  const MAX_OUTBOUND_BUFFER: nat := 1000

  datatype ConnectionState = Idle | Connected | Reconnecting | Failed

  type Message = nat

  /** A send under way, and whether it found the transport connected. */
  datatype Sending = Sending(msg: Message, direct: bool)

  /** `dropped` were pushed out of a full buffer; `refused` met a closed channel. */
  datatype Bridge = Bridge(
    state: ConnectionState,
    closed: bool,
    next: nat,
    sending: seq<Sending>,
    buffer: seq<Message>,
    drains: seq<seq<Message>>,
    outgoing: seq<Message>,
    dropped: seq<Message>,
    refused: seq<Message>)

  const NEW := Bridge(Idle, false, 0, [], [], [], [], [], [])

  datatype Event =
    | SetState(state: ConnectionState)
    | Close
    | BeginSend
    | FinishSend(i: nat)
    | BeginDrain
    | DrainOne(j: nat)

  /** Adding to a full buffer drops the oldest message. */
  function Push(b: Bridge, m: Message): Bridge {
    if |b.buffer| >= MAX_OUTBOUND_BUFFER
    then b.(buffer := b.buffer[1..] + [m], dropped := b.dropped + [b.buffer[0]])
    else b.(buffer := b.buffer + [m])
  }

  function Without<T>(s: seq<T>, i: nat): seq<T>
    requires i < |s|
  {
    s[..i] + s[i + 1..]
  }

  function Step(b: Bridge, e: Event): Bridge {
    match e
    case SetState(s) => b.(state := s)
    case Close => b.(closed := true)
    case BeginSend => b.(next := b.next + 1, sending := b.sending + [Sending(b.next, b.state == Connected)])
    case FinishSend(i) =>
      if i >= |b.sending| then b
      else
        var s := b.sending[i];
        var rest := b.(sending := Without(b.sending, i));
        if !s.direct then Push(rest, s.msg)
        else if b.closed then rest.(refused := b.refused + [s.msg])
        else rest.(outgoing := b.outgoing + [s.msg])
    case BeginDrain => b.(buffer := [], drains := b.drains + [b.buffer])
    case DrainOne(j) =>
      if j >= |b.drains| || b.drains[j] == [] then b
      else if b.closed then b.(drains := b.drains[j := []], refused := b.refused + b.drains[j])
      else b.(drains := b.drains[j := b.drains[j][1..]], outgoing := b.outgoing + [b.drains[j][0]])
  }

  function Run(b: Bridge, events: seq<Event>): Bridge
    decreases |events|
  {
    if events == [] then b else Run(Step(b, events[0]), events[1..])
  }

  // ---------------------------------------------------------------- every message is somewhere, once

  function Messages(sending: seq<Sending>): seq<Message> {
    seq(|sending|, i requires 0 <= i < |sending| => sending[i].msg)
  }

  function Flat(drains: seq<seq<Message>>): seq<Message> {
    if drains == [] then [] else Flat(drains[..|drains| - 1]) + drains[|drains| - 1]
  }

  /** In how many places a message is. */
  ghost function Copies(b: Bridge, m: Message): nat {
    Count(Messages(b.sending), m) + Count(b.buffer, m) + Count(Flat(b.drains), m)
    + Count(b.outgoing, m) + Count(b.dropped, m) + Count(b.refused, m)
  }

  ghost predicate Conserved(b: Bridge, m: Message) {
    Copies(b, m) == if m < b.next then 1 else 0
  }

  lemma CountFirst(s: seq<Message>, m: Message)
    requires s != []
    ensures Count(s, m) == Count([s[0]], m) + Count(s[1..], m)
  {
    assert s == [s[0]] + s[1..];
    CountConcat([s[0]], s[1..], m);
  }

  lemma CountWithout(sending: seq<Sending>, i: nat, m: Message)
    requires i < |sending|
    ensures Count(Messages(sending), m) ==
            Count(Messages(Without(sending, i)), m) + (if sending[i].msg == m then 1 else 0)
  {
    var a, x, c := Messages(sending[..i]), sending[i].msg, Messages(sending[i + 1..]);
    assert Messages(sending) == a + [x] + c && Messages(Without(sending, i)) == a + c;
    CountConcat(a + [x], c, m);
    CountConcat(a, c, m);
  }

  lemma {:induction false} CountFlatUpdate(drains: seq<seq<Message>>, j: nat, d: seq<Message>, m: Message)
    requires j < |drains|
    ensures Count(Flat(drains[j := d]), m) + Count(drains[j], m) == Count(Flat(drains), m) + Count(d, m)
  {
    var n := |drains| - 1;
    CountConcat(Flat(drains[..n]), drains[n], m);
    if j == n {
      assert drains[j := d][..n] == drains[..n];
      CountConcat(Flat(drains[..n]), d, m);
    } else {
      assert drains[j := d][..n] == drains[..n][j := d];
      CountFlatUpdate(drains[..n], j, d, m);
      CountConcat(Flat(drains[..n][j := d]), drains[n], m);
    }
  }

  lemma PushConserves(b: Bridge, x: Message, m: Message)
    ensures Copies(Push(b, x), m) == Copies(b, m) + (if x == m then 1 else 0)
  {
    if |b.buffer| >= MAX_OUTBOUND_BUFFER {
      CountFirst(b.buffer, m);
    }
  }

  lemma BeginSendConserves(b: Bridge, m: Message)
    requires Conserved(b, m)
    ensures Conserved(Step(b, BeginSend), m)
  {
    assert Messages(Step(b, BeginSend).sending) == Messages(b.sending) + [b.next];
  }

  lemma FinishSendConserves(b: Bridge, i: nat, m: Message)
    ensures Copies(Step(b, FinishSend(i)), m) == Copies(b, m)
  {
    if i < |b.sending| {
      var x := b.sending[i].msg;
      CountWithout(b.sending, i, m);
      PushConserves(b.(sending := Without(b.sending, i)), x, m);
    }
  }

  lemma BeginDrainConserves(b: Bridge, m: Message)
    ensures Copies(Step(b, BeginDrain), m) == Copies(b, m)
  {
    var drains := b.drains + [b.buffer];
    assert drains[..|drains| - 1] == b.drains;
    CountConcat(Flat(b.drains), b.buffer, m);
  }

  lemma DrainOneConserves(b: Bridge, j: nat, m: Message)
    ensures Copies(Step(b, DrainOne(j)), m) == Copies(b, m)
  {
    if j < |b.drains| && b.drains[j] != [] {
      if b.closed {
        CountFlatUpdate(b.drains, j, [], m);
        CountConcat(b.refused, b.drains[j], m);
      } else {
        CountFlatUpdate(b.drains, j, b.drains[j][1..], m);
        CountFirst(b.drains[j], m);
      }
    }
  }

  lemma StepConserves(b: Bridge, e: Event, m: Message)
    requires Conserved(b, m)
    ensures Conserved(Step(b, e), m)
  {
    match e
    case SetState(_) =>
    case Close =>
    case BeginSend => BeginSendConserves(b, m);
    case FinishSend(i) => FinishSendConserves(b, i, m);
    case BeginDrain => BeginDrainConserves(b, m);
    case DrainOne(j) => DrainOneConserves(b, j, m);
  }

  /** Over any interleaving, every message sent is in exactly one place: still being sent, buffered, in a
      drain under way, out, dropped from a full buffer, or refused by a closed channel. */
  lemma {:induction false} EveryMessageOnce(b: Bridge, events: seq<Event>, m: Message)
    requires Conserved(b, m)
    ensures Conserved(Run(b, events), m)
    decreases |events|
  {
    if events != [] {
      StepConserves(b, events[0], m);
      EveryMessageOnce(Step(b, events[0]), events[1..], m);
    }
  }

  lemma {:induction false} BufferStaysBounded(b: Bridge, events: seq<Event>)
    requires |b.buffer| <= MAX_OUTBOUND_BUFFER
    ensures |Run(b, events).buffer| <= MAX_OUTBOUND_BUFFER
    decreases |events|
  {
    if events != [] {
      BufferStaysBounded(Step(b, events[0]), events[1..]);
    }
  }

  // ---------------------------------------------------------------- closing

  /** Once the channel is closed it stays closed, and nothing more goes out. */
  lemma {:induction false} ClosedForGood(b: Bridge, events: seq<Event>)
    requires b.closed
    ensures Run(b, events).closed && Run(b, events).outgoing == b.outgoing
    decreases |events|
  {
    if events != [] {
      ClosedForGood(Step(b, events[0]), events[1..]);
    }
  }

  /** The channel is closed exactly when a close was among the events, and while it is not nothing is refused. */
  lemma {:induction false} ClosedIff(b: Bridge, events: seq<Event>)
    ensures Run(b, events).closed <==> b.closed || Close in events
    ensures !Run(b, events).closed ==> Run(b, events).refused == b.refused
    decreases |events|
  {
    if events != [] {
      ClosedIff(Step(b, events[0]), events[1..]);
      assert events == [events[0]] + events[1..];
    }
  }

  // ---------------------------------------------------------------- the newest are kept

  /** What was put into the buffer since the last drain began, and what overflowed before that. */
  datatype History = History(held: seq<Message>, gone: seq<Message>)

  /** All but the last thousand. */
  function Oldest(s: seq<Message>): seq<Message> {
    s[..|s| - |LastN(s, MAX_OUTBOUND_BUFFER)|]
  }

  function Recorded(b: Bridge, h: History, e: Event): History {
    match e
    case BeginDrain => History([], h.gone + Oldest(h.held))
    case FinishSend(i) =>
      if i < |b.sending| && !b.sending[i].direct then h.(held := h.held + [b.sending[i].msg]) else h
    case _ => h
  }

  function RecordAll(b: Bridge, h: History, events: seq<Event>): History
    decreases |events|
  {
    if events == [] then h else RecordAll(Step(b, events[0]), Recorded(b, h, events[0]), events[1..])
  }

  ghost predicate HoldsNewest(b: Bridge, h: History) {
    b.buffer == LastN(h.held, MAX_OUTBOUND_BUFFER) && b.dropped == h.gone + Oldest(h.held)
  }

  lemma NewestNext(s: seq<Message>, m: Message)
    requires |s| >= MAX_OUTBOUND_BUFFER
    ensures |LastN(s, MAX_OUTBOUND_BUFFER)| == MAX_OUTBOUND_BUFFER
    ensures LastN(s + [m], MAX_OUTBOUND_BUFFER) == LastN(s, MAX_OUTBOUND_BUFFER)[1..] + [m]
    ensures Oldest(s + [m]) == Oldest(s) + [LastN(s, MAX_OUTBOUND_BUFFER)[0]]
  {
  }

  lemma NewestFew(s: seq<Message>)
    requires |s| <= MAX_OUTBOUND_BUFFER
    ensures LastN(s, MAX_OUTBOUND_BUFFER) == s && Oldest(s) == []
  {
  }

  lemma PushKeepsNewest(b: Bridge, h: History, m: Message)
    requires HoldsNewest(b, h)
    ensures HoldsNewest(Push(b, m), h.(held := h.held + [m]))
  {
    if |h.held| >= MAX_OUTBOUND_BUFFER {
      NewestNext(h.held, m);
      assert h.gone + Oldest(h.held) + [b.buffer[0]] == h.gone + (Oldest(h.held) + [b.buffer[0]]);
    } else {
      NewestFew(h.held);
      NewestFew(h.held + [m]);
    }
  }

  lemma FinishKeepsNewest(b: Bridge, h: History, i: nat)
    requires HoldsNewest(b, h)
    ensures HoldsNewest(Step(b, FinishSend(i)), Recorded(b, h, FinishSend(i)))
  {
    if i < |b.sending| && !b.sending[i].direct {
      PushKeepsNewest(b.(sending := Without(b.sending, i)), h, b.sending[i].msg);
    }
  }

  lemma DrainKeepsNewest(b: Bridge, h: History)
    requires HoldsNewest(b, h)
    ensures HoldsNewest(Step(b, BeginDrain), Recorded(b, h, BeginDrain))
  {
    assert Oldest([]) == [];
    assert b.dropped + [] == b.dropped;
  }

  lemma StepKeepsNewest(b: Bridge, h: History, e: Event)
    requires HoldsNewest(b, h)
    ensures HoldsNewest(Step(b, e), Recorded(b, h, e))
  {
    match e
    case FinishSend(i) => FinishKeepsNewest(b, h, i);
    case BeginDrain => DrainKeepsNewest(b, h);
    case _ =>
  }

  /** Whatever is interleaved, the buffer holds the newest thousand of everything buffered since the latest
      drain began, in order, and exactly the older ones of each such stretch were dropped, oldest first. */
  lemma {:induction false} NewestAreKept(b: Bridge, h: History, events: seq<Event>)
    requires HoldsNewest(b, h)
    ensures HoldsNewest(Run(b, events), RecordAll(b, h, events))
    decreases |events|
  {
    if events != [] {
      StepKeepsNewest(b, h, events[0]);
      NewestAreKept(Step(b, events[0]), Recorded(b, h, events[0]), events[1..]);
    }
  }

  // ---------------------------------------------------------------- order

  ghost predicate Rises(s: seq<Message>) {
    forall i, j :: 0 <= i < j < |s| ==> s[i] < s[j]
  }

  ghost predicate AllBelow(s: seq<Message>, m: Message) {
    forall i :: 0 <= i < |s| ==> s[i] < m
  }

  ghost predicate AllAbove(s: seq<Message>, m: Message) {
    forall i :: 0 <= i < |s| ==> m < s[i]
  }

  /** What still has to go out, in the order it will. */
  function Queue(b: Bridge): seq<Message> {
    Flat(b.drains) + b.buffer
  }

  /** Everything that is out or will go out. */
  function Line(b: Bridge): seq<Message> {
    b.outgoing + Queue(b)
  }

  ghost predicate InOrder(b: Bridge) {
    Rises(Line(b))
  }

  /** The line once a full buffer has made room. */
  function Kept(b: Bridge): seq<Message> {
    b.outgoing + (Flat(b.drains) + if |b.buffer| >= MAX_OUTBOUND_BUFFER then b.buffer[1..] else b.buffer)
  }

  /**
    What keeps the line in order. A send that found the transport connected must reach the channel after
    everything sent earlier and before everything that waits; one that did not must reach the buffer after
    everything sent earlier that is still in the line; and a drain must not overtake an earlier one. A
    closed channel takes nothing, so it disturbs nothing.
  */
  ghost predicate Careful(b: Bridge, e: Event) {
    match e
    case FinishSend(i) =>
      i < |b.sending| ==>
        var s := b.sending[i];
        if s.direct then b.closed || (AllBelow(b.outgoing, s.msg) && AllAbove(Queue(b), s.msg))
        else AllBelow(Kept(b), s.msg)
    case DrainOne(j) => j < |b.drains| && b.drains[j] != [] ==> b.closed || Flat(b.drains[..j]) == []
    case _ => true
  }

  lemma RisesApart(a: seq<Message>, c: seq<Message>)
    ensures Rises(a + c) <==> Rises(a) && Rises(c) && forall i, j :: 0 <= i < |a| && 0 <= j < |c| ==> a[i] < c[j]
  {
    var s := a + c;
    if Rises(s) {
      assert forall i :: 0 <= i < |a| ==> a[i] == s[i];
      assert forall j :: 0 <= j < |c| ==> c[j] == s[|a| + j];
    }
  }

  lemma RisesWithin(a: seq<Message>, m: Message, c: seq<Message>)
    requires Rises(a + c)
    ensures Rises(a + ([m] + c)) <==> AllBelow(a, m) && AllAbove(c, m)
  {
    RisesApart(a, c);
    RisesApart([m], c);
    RisesApart(a, [m] + c);
    assert ([m] + c)[0] == m && forall j :: 0 <= j < |c| ==> ([m] + c)[j + 1] == c[j];
  }

  lemma RisesWithout(a: seq<Message>, x: seq<Message>, c: seq<Message>)
    requires Rises(a + (x + c))
    ensures Rises(a + c)
  {
    RisesApart(a, x + c);
    RisesApart(x, c);
    RisesApart(a, c);
    assert forall j :: 0 <= j < |c| ==> (x + c)[|x| + j] == c[j];
  }

  lemma FinishDirect(b: Bridge, i: nat)
    requires InOrder(b) && i < |b.sending| && b.sending[i].direct
    ensures InOrder(Step(b, FinishSend(i))) <==> Careful(b, FinishSend(i))
  {
    if !b.closed {
      var m := b.sending[i].msg;
      RisesWithin(b.outgoing, m, Queue(b));
      assert b.outgoing + [m] + Queue(b) == b.outgoing + ([m] + Queue(b));
    }
  }

  lemma KeptRises(b: Bridge)
    requires InOrder(b)
    ensures Rises(Kept(b))
  {
    if |b.buffer| >= MAX_OUTBOUND_BUFFER {
      var ahead := b.outgoing + Flat(b.drains);
      assert Line(b) == ahead + ([b.buffer[0]] + b.buffer[1..]);
      RisesWithout(ahead, [b.buffer[0]], b.buffer[1..]);
      assert Kept(b) == ahead + b.buffer[1..];
    }
  }

  lemma FinishBuffered(b: Bridge, i: nat)
    requires InOrder(b) && i < |b.sending| && !b.sending[i].direct
    ensures InOrder(Step(b, FinishSend(i))) <==> Careful(b, FinishSend(i))
  {
    var m := b.sending[i].msg;
    KeptRises(b);
    RisesApart(Kept(b), [m]);
    assert [m][0] == m;
    assert Line(Step(b, FinishSend(i))) == Kept(b) + [m];
  }

  lemma BeginDrainKeepsLine(b: Bridge)
    ensures Line(Step(b, BeginDrain)) == Line(b)
  {
    var drains := b.drains + [b.buffer];
    assert drains[..|drains| - 1] == b.drains;
    assert Flat(drains) + [] == Queue(b);
  }

  /** What comes before and after drain `j`. */
  lemma {:induction false} FlatSplit(drains: seq<seq<Message>>, j: nat, d: seq<Message>) returns (rest: seq<Message>)
    requires j < |drains|
    ensures Flat(drains) == Flat(drains[..j]) + (drains[j] + rest)
    ensures Flat(drains[j := d]) == Flat(drains[..j]) + (d + rest)
  {
    var n := |drains| - 1;
    var after := drains[j := d];
    if j == n {
      rest := [];
      assert after[..n] == drains[..n];
    } else {
      rest := FlatSplit(drains[..n], j, d);
      assert after[..n] == drains[..n][j := d] && drains[..n][..j] == drains[..j];
      rest := rest + drains[n];
    }
  }

  lemma DrainRefused(b: Bridge, j: nat)
    requires InOrder(b) && b.closed && j < |b.drains| && b.drains[j] != []
    ensures InOrder(Step(b, DrainOne(j)))
  {
    var rest := FlatSplit(b.drains, j, []);
    var ahead := b.outgoing + Flat(b.drains[..j]);
    assert Line(b) == ahead + (b.drains[j] + (rest + b.buffer));
    RisesWithout(ahead, b.drains[j], rest + b.buffer);
    assert Line(Step(b, DrainOne(j))) == ahead + (rest + b.buffer);
  }

  lemma DrainForwards(b: Bridge, j: nat)
    requires InOrder(b) && !b.closed && j < |b.drains| && b.drains[j] != []
    ensures InOrder(Step(b, DrainOne(j))) <==> Flat(b.drains[..j]) == []
  {
    var d := b.drains[j];
    var ahead, x := Flat(b.drains[..j]), d[0];
    var rest := FlatSplit(b.drains, j, d[1..]);
    var after := d[1..] + rest + b.buffer;
    assert d == [x] + d[1..];
    assert Line(b) == b.outgoing + (ahead + ([x] + after));
    assert Line(Step(b, DrainOne(j))) == b.outgoing + ([x] + (ahead + after));
    if ahead == [] {
      assert ahead + ([x] + after) == [x] + (ahead + after);
    } else {
      RisesApart(b.outgoing, ahead + ([x] + after));
      RisesApart(ahead, [x] + after);
      assert ahead[0] < ([x] + after)[0] == x;
      RisesApart(b.outgoing, [x] + (ahead + after));
      RisesApart([x], ahead + after);
      assert (ahead + after)[0] == ahead[0];
    }
  }

  /** A step keeps the line in order exactly when it is careful. */
  lemma CarefulIff(b: Bridge, e: Event)
    requires InOrder(b)
    ensures InOrder(Step(b, e)) <==> Careful(b, e)
  {
    match e
    case FinishSend(i) =>
      if i < |b.sending| {
        if b.sending[i].direct {
          FinishDirect(b, i);
        } else {
          FinishBuffered(b, i);
        }
      }
    case BeginDrain => BeginDrainKeepsLine(b);
    case DrainOne(j) =>
      if j < |b.drains| && b.drains[j] != [] {
        if b.closed {
          DrainRefused(b, j);
        } else {
          DrainForwards(b, j);
        }
      }
    case _ =>
  }

  ghost predicate AlwaysInOrder(b: Bridge, events: seq<Event>)
    decreases |events|
  {
    InOrder(b) && (events == [] || AlwaysInOrder(Step(b, events[0]), events[1..]))
  }

  ghost predicate AllCareful(b: Bridge, events: seq<Event>)
    decreases |events|
  {
    events == [] || (Careful(b, events[0]) && AllCareful(Step(b, events[0]), events[1..]))
  }

  /** Over every interleaving of split sends and drains, state changes and closing: what is out and what will
      go out is in the order it was sent throughout the run exactly when every step is careful. */
  lemma {:induction false} OrderIsKeptIff(b: Bridge, events: seq<Event>)
    requires InOrder(b)
    ensures AlwaysInOrder(b, events) <==> AllCareful(b, events)
    decreases |events|
  {
    if events != [] {
      CarefulIff(b, events[0]);
      if Careful(b, events[0]) {
        OrderIsKeptIff(Step(b, events[0]), events[1..]);
      }
    }
  }

  /** So in careful runs messages go out in the order they were sent. */
  lemma {:induction false} OrderIsKept(b: Bridge, events: seq<Event>)
    requires InOrder(b) && AllCareful(b, events)
    ensures InOrder(Run(b, events)) && Rises(Run(b, events).outgoing)
    decreases |events|
  {
    if events == [] {
      RisesApart(b.outgoing, Queue(b));
    } else {
      CarefulIff(b, events[0]);
      OrderIsKept(Step(b, events[0]), events[1..]);
    }
  }

  // ---------------------------------------------------------------- whole sends

  /** One send from start to end, with nothing in between. */
  function Send(b: Bridge): Bridge {
    Step(Step(b, BeginSend), FinishSend(|b.sending|))
  }

  /** The numbers given out so far are below the next one. */
  ghost predicate Numbered(b: Bridge) {
    AllBelow(Line(b), b.next) && forall i :: 0 <= i < |b.sending| ==> b.sending[i].msg < b.next
  }

  lemma {:induction false} CountPositive(s: seq<Message>, i: nat)
    requires i < |s|
    ensures Count(s, s[i]) > 0
  {
    var n := |s| - 1;
    if i < n {
      CountPositive(s[..n], i);
    }
  }

  /** In every run from a new bridge the numbers given out are below the next one. */
  lemma RunsAreNumbered(events: seq<Event>)
    ensures Numbered(Run(NEW, events))
  {
    var b := Run(NEW, events);
    forall i | 0 <= i < |Line(b)|
      ensures Line(b)[i] < b.next
    {
      var m := Line(b)[i];
      EveryMessageOnce(NEW, events, m);
      CountPositive(Line(b), i);
      CountConcat(b.outgoing, Queue(b), m);
      CountConcat(Flat(b.drains), b.buffer, m);
    }
    forall i | 0 <= i < |b.sending|
      ensures b.sending[i].msg < b.next
    {
      EveryMessageOnce(NEW, events, b.sending[i].msg);
      CountPositive(Messages(b.sending), i);
    }
  }

  lemma KeptBelow(b: Bridge, m: Message)
    requires AllBelow(Line(b), m)
    ensures AllBelow(Kept(b), m)
  {
    var cut := |b.outgoing| + |Flat(b.drains)|;
    forall k | 0 <= k < |Kept(b)|
      ensures Kept(b)[k] < m
    {
      assert Kept(b)[k] == Line(b)[if k < cut || |b.buffer| < MAX_OUTBOUND_BUFFER then k else k + 1];
    }
  }

  lemma WholeSendCareful(b: Bridge)
    requires Numbered(b)
    ensures Careful(Step(b, BeginSend), FinishSend(|b.sending|)) <==>
              b.state != Connected || b.closed || Queue(b) == []
  {
    var begun := Step(b, BeginSend);
    assert begun.sending[|b.sending|] == Sending(b.next, b.state == Connected);
    assert Queue(begun) == Queue(b) && Kept(begun) == Kept(b);
    assert forall k :: 0 <= k < |b.outgoing| ==> b.outgoing[k] == Line(b)[k];
    KeptBelow(b, b.next);
    if Queue(b) != [] {
      assert Queue(b)[0] == Line(b)[|b.outgoing|];
    }
  }

  /** A send with nothing in between keeps the line in order exactly when it is buffered, meets a closed
      channel, or finds nothing waiting to be drained. */
  lemma WholeSendInOrderIff(b: Bridge)
    requires InOrder(b) && Numbered(b)
    ensures InOrder(Send(b)) <==> b.state != Connected || b.closed || Queue(b) == []
  {
    WholeSendCareful(b);
    assert Line(Step(b, BeginSend)) == Line(b);
    CarefulIff(Step(b, BeginSend), FinishSend(|b.sending|));
  }

  /** A send between a reconnect and the drain overtakes what was buffered. */
  lemma SendBeforeDrainOvertakes()
    ensures var b0 := Send(NEW.(state := Reconnecting));
            var b1 := Send(Step(b0, SetState(Connected)));
            Step(Step(b1, BeginDrain), DrainOne(0)).outgoing == [1, 0]
  {
    var c0 := NEW.(state := Reconnecting);
    var b0 := Send(c0);
    assert b0.buffer == [0] && b0.outgoing == [] && b0.drains == [] && b0.next == 1;
    var c1 := Step(b0, SetState(Connected));
    var b1 := Send(c1);
    assert b1.outgoing == [1] && b1.buffer == [0] && b1.drains == [];
    assert Step(b1, BeginDrain).drains == [[0]];
  }

  /** A send reads the state while reconnecting; the transport reconnects, the drain finds nothing, and the
      next message goes straight out. */
  lemma LaterSendGoesOut() returns (b: Bridge)
    ensures var begun := Step(NEW.(state := Reconnecting), BeginSend);
            var drained := Step(Step(begun, SetState(Connected)), BeginDrain);
            Queue(drained) == [] && b == Send(drained)
    ensures b == NEW.(state := Connected, next := 2, sending := [Sending(0, false)], drains := [[]], outgoing := [1])
  {
    var begun := Step(NEW.(state := Reconnecting), BeginSend);
    assert begun.sending == [Sending(0, false)];
    var drained := Step(Step(begun, SetState(Connected)), BeginDrain);
    BeginDrainKeepsLine(Step(begun, SetState(Connected)));
    assert drained.drains == [[]];
    var again := Step(drained, BeginSend);
    assert again.sending == [Sending(0, false), Sending(1, true)];
    b := Step(again, FinishSend(1));
    assert b.sending == [Sending(0, false)] && b.outgoing == [1];
  }

  /**
    Draining at once after a reconnect is not enough. A send that read the state before it reaches the buffer
    after the drain: its message is stranded there while the bridge is connected, a later message is out, and
    the next drain sends the two in the wrong order.
  */
  lemma LateSendIsStranded()
    ensures var begun := Step(NEW.(state := Reconnecting), BeginSend);
            var drained := Step(Step(begun, SetState(Connected)), BeginDrain);
            var late := Step(Send(drained), FinishSend(0));
            && Queue(drained) == []
            && late.state == Connected && late.sending == [] && late.outgoing == [1] && late.buffer == [0]
            && Step(Step(late, BeginDrain), DrainOne(1)).outgoing == [1, 0]
  {
    var b := LaterSendGoesOut();
    var late := Step(b, FinishSend(0));
    assert late.sending == [] && late.buffer == [0];
    assert Step(late, BeginDrain).drains == [[], [0]];
  }

  // ---------------------------------------------------------------- the program

  /** `n` messages of drain `j` forwarded. */
  function ForwardOn(b: Bridge, j: nat, n: nat): Bridge
    decreases n
  {
    if n == 0 then b else ForwardOn(Step(b, DrainOne(j)), j, n - 1)
  }

  /** One drain from start to end, with nothing in between. */
  function DrainAll(b: Bridge): Bridge {
    ForwardOn(Step(b, BeginDrain), |b.drains|, |b.buffer|)
  }

  lemma {:induction false} NothingToForward(b: Bridge, j: nat, n: nat)
    requires j < |b.drains| && b.drains[j] == []
    ensures ForwardOn(b, j, n) == b
  {
    if n > 0 {
      NothingToForward(b, j, n - 1);
    }
  }

  lemma {:induction false} ForwardOnOpen(b: Bridge, j: nat)
    requires !b.closed && j < |b.drains|
    ensures ForwardOn(b, j, |b.drains[j]|) == b.(drains := b.drains[j := []], outgoing := b.outgoing + b.drains[j])
    decreases |b.drains[j]|
  {
    var d := b.drains[j];
    if d == [] {
      assert b.drains[j := []] == b.drains && b.outgoing + d == b.outgoing;
    } else {
      var next := Step(b, DrainOne(j));
      ForwardOnOpen(next, j);
      assert next.drains[j := []] == b.drains[j := []];
      assert b.outgoing + [d[0]] + d[1..] == b.outgoing + d;
    }
  }

  /** An undisturbed drain sends the whole buffer out in order, or loses all of it to a closed channel. */
  lemma DrainAllMeaning(b: Bridge)
    ensures DrainAll(b) ==
            if b.closed then b.(buffer := [], drains := b.drains + [[]], refused := b.refused + b.buffer)
            else b.(buffer := [], drains := b.drains + [[]], outgoing := b.outgoing + b.buffer)
  {
    var j, begun := |b.drains|, Step(b, BeginDrain);
    assert begun.drains[j := []] == b.drains + [[]];
    if !b.closed {
      ForwardOnOpen(begun, j);
    } else if b.buffer == [] {
      assert b.refused + b.buffer == b.refused;
    } else {
      NothingToForward(Step(begun, DrainOne(j)), j, |b.buffer| - 1);
    }
  }

  class Outbound {
    var state: ConnectionState
    var buffer: seq<Message>
    var outgoing: seq<Message>
    var closed: bool
    ghost var dropped: seq<Message>
    ghost var refused: seq<Message>

    constructor ()
      ensures Valid() && At(0) == NEW
    {
      state, buffer, outgoing, closed, dropped, refused := Idle, [], [], false, [], [];
    }

    ghost predicate Valid()
      reads this
    {
      |buffer| <= MAX_OUTBOUND_BUFFER
    }

    /** The bridge between calls, with `next` the number of the next message. */
    ghost function At(next: nat): Bridge
      reads this
    {
      Bridge(state, closed, next, [], buffer, [], outgoing, dropped, refused)
    }

    /** Changing the state moves no message. */
    method ChangeTo(s: ConnectionState)
      modifies this`state
      ensures state == s && forall n: nat :: At(n) == Step(old(At(n)), SetState(s))
    {
      if state != s {
        state := s;
      }
    }

    method SendMessage(m: Message) returns (ok: bool)
      requires Valid()
      modifies this
      ensures Valid() && At(m + 1) == Send(old(At(m)))
      ensures ok <==> state != Connected || !closed
      ensures ok && state == Connected ==> outgoing == old(outgoing) + [m]
      ensures !ok ==> refused == old(refused) + [m]
      ensures state != Connected ==> buffer == LastN(old(buffer) + [m], MAX_OUTBOUND_BUFFER)
    {
      ok := true;
      if state == Connected {
        if closed {
          refused := refused + [m];
          return false;
        }
        outgoing := outgoing + [m];
      } else {
        if |buffer| >= MAX_OUTBOUND_BUFFER {
          dropped := dropped + [buffer[0]];
          buffer := buffer[1..];
        }
        buffer := buffer + [m];
      }
    }

    /** Forwards the whole buffer in order; a closed channel loses it and says so. */
    method DrainBuffer() returns (ok: bool)
      requires Valid()
      modifies this
      ensures Valid() && forall n: nat :: At(n).(drains := [[]]) == DrainAll(old(At(n)))
      ensures ok <==> !closed || old(buffer) == []
      ensures buffer == []
      ensures ok ==> outgoing == old(outgoing) + old(buffer)
      ensures !ok ==> refused == old(refused) + old(buffer)
    {
      var messages := buffer;
      forall n: nat
        ensures DrainAll(At(n)) == if closed then At(n).(buffer := [], drains := [[]], refused := refused + messages)
                                   else At(n).(buffer := [], drains := [[]], outgoing := outgoing + messages)
      {
        DrainAllMeaning(At(n));
        assert [] + [[]] == At(n).(drains := [[]]).drains;
      }
      buffer := [];
      for i := 0 to |messages|
        invariant buffer == [] && state == old(state) && closed == old(closed) && dropped == old(dropped)
        invariant refused == old(refused)
        invariant outgoing == old(outgoing) + messages[..i]
        invariant closed ==> i == 0
      {
        if closed {
          refused := refused + messages;
          return false;
        }
        outgoing := outgoing + [messages[i]];
      }
      return true;
    }
  }
}
