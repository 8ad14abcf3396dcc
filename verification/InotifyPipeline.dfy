/** The byte layout of inotify records: a 16-byte header of four little-endian words, then the name. */
module InotifyRecords {
  import opened Bytes
  import opened Wrappers

  type Word = w: nat | w < 0x1_0000_0000

  /** A name whose length fits the `len` word. */
  type Name = n: seq<Byte> | |n| < 0x1_0000_0000 witness []

  datatype Event = Event(wd: Word, mask: Word, cookie: Word, name: Name)

  const HEADER: nat := 16

  function EncodeWord(w: Word): (b: seq<Byte>)
    ensures |b| == 4
  {
    [w % 0x100, (w / 0x100) % 0x100, (w / 0x1_0000) % 0x100, w / 0x100_0000]
  }

  function WordAt(b: seq<Byte>, i: nat): Word
    requires i + 4 <= |b|
  {
    (b[i] as int) + 0x100 * (b[i + 1] as int) + 0x1_0000 * (b[i + 2] as int) + 0x100_0000 * (b[i + 3] as int)
  }

  function Encode(e: Event): (b: seq<Byte>)
    ensures |b| == HEADER + |e.name|
  {
    EncodeWord(e.wd) + EncodeWord(e.mask) + EncodeWord(e.cookie) + EncodeWord(|e.name|) + e.name
  }

  function EncodeAll(events: seq<Event>): seq<Byte>
  {
    if events == [] then [] else EncodeAll(events[..|events| - 1]) + Encode(events[|events| - 1])
  }

  /** The record that starts at offset i. */
  function EventAt(b: seq<Byte>, i: nat): Event
    requires i + HEADER <= |b| && i + HEADER + WordAt(b, i + 12) <= |b|
  {
    Event(WordAt(b, i), WordAt(b, i + 4), WordAt(b, i + 8), b[i + HEADER..i + HEADER + WordAt(b, i + 12)])
  }

  lemma WordBytes(w: Word, b: seq<Byte>, i: nat)
    requires i + 4 <= |b| && b[i] == EncodeWord(w)[0] && b[i + 1] == EncodeWord(w)[1]
    requires b[i + 2] == EncodeWord(w)[2] && b[i + 3] == EncodeWord(w)[3]
    ensures WordAt(b, i) == w
  {
    assert w / 0x100 == (w / 0x1_0000) * 0x100 + (w / 0x100) % 0x100;
    assert w / 0x1_0000 == (w / 0x100_0000) * 0x100 + (w / 0x1_0000) % 0x100;
  }

  lemma HeaderBytes(e: Event)
    ensures forall k :: 0 <= k < 4 ==> Encode(e)[k] == EncodeWord(e.wd)[k]
    ensures forall k :: 0 <= k < 4 ==> Encode(e)[4 + k] == EncodeWord(e.mask)[k]
    ensures forall k :: 0 <= k < 4 ==> Encode(e)[8 + k] == EncodeWord(e.cookie)[k]
    ensures forall k :: 0 <= k < 4 ==> Encode(e)[12 + k] == EncodeWord(|e.name|)[k]
    ensures Encode(e)[HEADER..] == e.name
  {
    hide EncodeWord;
  }

  /** Wherever an encoded record stands in a buffer, decoding there gives it back. */
  lemma {:induction false} RecordRoundTrip(e: Event, before: seq<Byte>, after: seq<Byte>)
    ensures var b := before + Encode(e) + after;
      && WordAt(b, |before| + 12) == |e.name|
      && EventAt(b, |before|) == e
  {
    HeaderBytes(e);
    hide EncodeWord, WordAt, Encode;
    var b, i := before + Encode(e) + after, |before|;
    assert forall k :: 0 <= k < |Encode(e)| ==> b[i + k] == Encode(e)[k];
    WordBytes(e.wd, b, i);
    WordBytes(e.mask, b, i + 4);
    WordBytes(e.cookie, b, i + 8);
    WordBytes(|e.name|, b, i + 12);
    assert b[i + HEADER..i + HEADER + |e.name|] == Encode(e)[HEADER..];
  }

  lemma EncodeAllSnoc(events: seq<Event>)
    requires events != []
    ensures EncodeAll(events) == EncodeAll(events[..|events| - 1]) + Encode(events[|events| - 1])
  {
  }

  /** A buffer is the first k records, the k-th, and the rest. */
  lemma {:induction false} BufferParts(events: seq<Event>, k: nat) returns (after: seq<Byte>)
    requires k < |events|
    ensures EncodeAll(events) == EncodeAll(events[..k]) + Encode(events[k]) + after
  {
    hide *;
    var n := |events| - 1;
    EncodeAllSnoc(events);
    if k == n {
      after := [];
    } else {
      var rest := BufferParts(events[..n], k);
      assert events[..n][..k] == events[..k];
      after := rest + Encode(events[n]);
      var front := EncodeAll(events[..k]) + Encode(events[k]);
      assert (front + rest) + Encode(events[n]) == front + after;
    }
  }

  /** The k-th record of a buffer starts where the first k end, and is the k-th event. */
  lemma RecordInBuffer(events: seq<Event>, k: nat)
    requires k < |events|
    ensures var b, i := EncodeAll(events), |EncodeAll(events[..k])|;
      && i + HEADER + |events[k].name| <= |b|
      && WordAt(b, i + 12) == |events[k].name|
      && EventAt(b, i) == events[k]
      && |EncodeAll(events[..k + 1])| == i + HEADER + |events[k].name|
  {
    var before := EncodeAll(events[..k]);
    var after := BufferParts(events, k);
    RecordRoundTrip(events[k], before, after);
    assert events[..k + 1][..k] == events[..k];
  }

  /** All records from offset i on, if they end exactly at the end of the buffer. */
  function DecodeFrom(b: seq<Byte>, i: nat): Option<seq<Event>>
    requires i <= |b|
    decreases |b| - i
  {
    if i == |b| then Some([])
    else if i + HEADER > |b| || i + HEADER + WordAt(b, i + 12) > |b| then None
    else match DecodeFrom(b, i + HEADER + WordAt(b, i + 12))
      case None => None
      case Some(rest) => Some([EventAt(b, i)] + rest)
  }

  /** Decoding a concatenation of records from the k-th on yields exactly those records and lands on the end. */
  lemma {:induction false} BufferRoundTrip(events: seq<Event>, k: nat)
    requires k <= |events|
    ensures |EncodeAll(events[..k])| <= |EncodeAll(events)|
    ensures DecodeFrom(EncodeAll(events), |EncodeAll(events[..k])|) == Some(events[k..])
    decreases |events| - k
  {
    hide Encode, EncodeAll, EventAt;
    if k == |events| {
      assert events[..k] == events;
    } else {
      RecordInBuffer(events, k);
      BufferRoundTrip(events, k + 1);
      assert events[k..] == [events[k]] + events[k + 1..];
    }
  }

  lemma {:induction false} EncodeAllLength(events: seq<Event>)
    ensures |EncodeAll(events)| >= HEADER * |events|
    ensures events == [] <==> EncodeAll(events) == []
  {
    if events != [] {
      EncodeAllLength(events[..|events| - 1]);
    }
  }
}

/** The inotify thread: poll, read a buffer of records, queue them, and handle the queue until it is empty. */
module InotifyPipeline {
  import opened Bytes
  import opened InotifyRecords
  import opened EventQueue
  import opened StopFlag

  /** One answer of the kernel: `poll` fails, times out or reports no input, or it reports input and `read` gives whole records (or nothing). */
  datatype Poll = PollFailed | TimedOut | NoInput | Ready(events: seq<Event>)

  /** Events of files in a watched directory carry a name. */
  ghost predicate Named(events: seq<Event>) {
    forall i :: 0 <= i < |events| ==> events[i].name != []
  }

  /** Handling the first event moves it from the queue to the events that are done. */
  lemma MoveFirst(handled: seq<Event>, queued: seq<Event>)
    requires queued != [] && Named(queued)
    ensures Named(queued[1..]) && (handled + [queued[0]]) + queued[1..] == handled + queued
  {
  }

  ghost predicate PollOk(p: Poll) {
    p.Ready? ==> Named(p.events)
  }

  function AllEvents(polls: seq<Poll>): seq<Event> {
    if polls == [] then []
    else AllEvents(polls[..|polls| - 1]) + if polls[|polls| - 1].Ready? then polls[|polls| - 1].events else []
  }

  lemma NothingEncoded(events: seq<Event>)
    ensures EncodeAll(events[..0]) == [] && events[..|events|] == events
  {
  }

  lemma OneMoreQueued(queued: seq<Event>, events: seq<Event>, n: nat)
    requires n < |events|
    ensures queued + events[..n + 1] == (queued + events[..n]) + [events[n]]
  {
  }

  // ---------- The watch count ----------

  const ULONG_RANGE := 0x1_0000_0000_0000_0000
  const DOT: Byte := 46

  /** Bit k of an event mask, for the weight 2^k. */
  predicate Has(mask: Word, weight: nat)
    requires weight > 0
  {
    mask / weight % 2 == 1
  }

  /**
    Whether handling an event gives up a watch: of IN_ALL_EVENTS, IN_Q_OVERFLOW and IN_IGNORED only the
    last is set, it is not about a directory or a hidden file, and the directory lookup did not break off.
   */
  predicate Releases(e: Event, gaveUp: bool) {
    && !Has(e.mask, 0x4000_0000) && !(e.name != [] && e.name[0] == DOT) && !gaveUp
    && e.mask % 0x1000 == 0 && !Has(e.mask, 0x4000) && Has(e.mask, 0x8000)
  }

  /** A mask put together from its fields: the low twelve bits are IN_ALL_EVENTS, then single flags and the rest. */
  function MaskOf(events: nat, b12: nat, unmount: nat, overflow: nat, ignored: nat, mid: nat, isDir: nat, top: nat): nat {
    events + 0x1000 * b12 + 0x2000 * unmount + 0x4000 * overflow + 0x8000 * ignored + 0x1_0000 * mid
    + 0x4000_0000 * isDir + 0x8000_0000 * top
  }

  lemma HasFlag(mask: Word, low: nat, flag: nat, high: nat, weight: nat)
    requires weight == 0x4000 || weight == 0x8000 || weight == 0x4000_0000
    requires low < weight && flag < 2 && mask == low + weight * (flag + 2 * high)
    ensures Has(mask, weight) <==> flag == 1
  {
    if weight == 0x4000 {
      assert mask / 0x4000 == flag + 2 * high;
    } else if weight == 0x8000 {
      assert mask / 0x8000 == flag + 2 * high;
    } else {
      assert mask / 0x4000_0000 == flag + 2 * high;
    }
  }

  lemma LowTwelve(mask: Word, low: nat, high: nat)
    requires low < 0x1000 && mask == low + 0x1000 * high
    ensures mask % 0x1000 == low
  {
  }

  /** The fields decide: no event bit, no overflow, the ignored bit, and no directory; the other flags do not matter. */
  lemma ReleasesByFields(e: Event, gaveUp: bool, events: nat, b12: nat, unmount: nat, overflow: nat, ignored: nat,
                         mid: nat, isDir: nat, top: nat)
    requires events < 0x1000 && b12 < 2 && unmount < 2 && overflow < 2 && ignored < 2 && mid < 0x4000 && isDir < 2 && top < 2
    requires e.mask == MaskOf(events, b12, unmount, overflow, ignored, mid, isDir, top) && e.name != []
    ensures Releases(e, gaveUp) <==>
            events == 0 && overflow == 0 && ignored == 1 && isDir == 0 && e.name[0] != 46 && !gaveUp
  {
    var m, upper := e.mask, mid + 0x4000 * isDir + 0x8000 * top;
    hide Has;
    LowTwelve(m, events, b12 + 2 * unmount + 4 * overflow + 8 * ignored + 16 * upper);
    HasFlag(m, events + 0x1000 * b12 + 0x2000 * unmount, overflow, ignored + 2 * upper, 0x4000);
    HasFlag(m, events + 0x1000 * b12 + 0x2000 * unmount + 0x4000 * overflow, ignored, upper, 0x8000);
    HasFlag(m, m - 0x4000_0000 * (isDir + 2 * top), isDir, top, 0x4000_0000);
  }

  /** How many of the handled events gave up a watch. */
  function Released(handled: seq<Event>, givesUp: nat -> bool): nat {
    if handled == [] then 0
    else
      var n := |handled| - 1;
      Released(handled[..n], givesUp) + if Releases(handled[n], givesUp(n)) then 1 else 0
  }

  lemma ReleasedNext(handled: seq<Event>, e: Event, givesUp: nat -> bool)
    ensures Released(handled + [e], givesUp) ==
            Released(handled, givesUp) + if Releases(e, givesUp(|handled|)) then 1 else 0
  {
    assert (handled + [e])[..|handled|] == handled;
    hide Releases;
  }

  /** The watches added in the first n rounds of the outer loop. */
  function Added(additions: nat -> nat, n: nat): nat {
    if n == 0 then 0 else Added(additions, n - 1) + additions(n - 1)
  }

  lemma Modulo(a: int, b: int)
    ensures ULONG_RANGE > 0 && (a % ULONG_RANGE + b) % ULONG_RANGE == (a + b) % ULONG_RANGE
    ensures (a % ULONG_RANGE + ULONG_RANGE - 1) % ULONG_RANGE == (a - 1) % ULONG_RANGE
  {
  }

  // ---------- The thread ----------

  class Backup {
    const queue: Queue<Event>
    const signals: Signals          // when the signal arrives
    const givesUp: nat -> bool      // whether the directory lookup for the n-th handled event breaks off
    const additions: nat -> nat     // watches that the discovery thread adds in the n-th round
    ghost const initial: nat
    var running: bool
    var looks: nat                  // how often the flag has been looked at
    var watched: nat
    var rounds: nat
    var handled: seq<Event>
    var answers: seq<Poll>          // the kernel's answers still to come; the signal arrives when they end
    ghost var consumed: seq<Poll>

    ghost predicate Valid()
      reads this, queue, queue.repr
    {
      && queue.Valid() && this !in queue.repr && WatchesCounted()
      && forall i :: 0 <= i < |answers| ==> PollOk(answers[i])
    }

    /** The count is what there was at first, plus the watches added, minus those given up. */
    ghost predicate WatchesCounted()
      reads `watched, `rounds, `handled
    {
      watched == (initial + Added(additions, rounds) - Released(handled, givesUp)) % ULONG_RANGE
    }

    constructor (answers: seq<Poll>, watched: nat, signals: Signals, givesUp: nat -> bool, additions: nat -> nat)
      requires (forall i :: 0 <= i < |answers| ==> PollOk(answers[i])) && watched < ULONG_RANGE
      ensures Valid() && fresh(queue.repr) && queue.nodes == [] && this.watched == initial == watched
      ensures this.signals == signals && this.givesUp == givesUp && this.additions == additions
      ensures running && looks == 0 && rounds == 0 && handled == [] && consumed == [] && this.answers == answers
    {
      queue := new Queue();
      this.signals, this.givesUp, this.additions := signals, givesUp, additions;
      running, looks, rounds := true, 0, 0;
      this.watched, initial := watched, watched;
      this.answers := answers;
      handled := [];
      consumed := [];
    }

    /** Every event delivered so far has been handled once, in arrival order. */
    ghost predicate CaughtUp()
      reads this
    {
      handled == AllEvents(consumed)
    }

    /** The flag fell during the last read, and only a tail of that read's events was dropped. */
    ghost predicate LostTail()
      reads this
    {
      && !running && consumed != [] && consumed[|consumed| - 1].Ready?
      && var last := consumed[|consumed| - 1].events;
         exists k :: 0 <= k < |last| && handled == AllEvents(consumed[..|consumed| - 1]) + last[..k]
    }

    /** Reading `backup_keep_running`: a signal may have arrived since the last look, and is never undone. */
    method KeepRunning() returns (b: bool)
      modifies this`running, this`looks
      ensures looks == old(looks) + 1
      ensures b == running == (old(running) && !signals(old(looks)))
    {
      if signals(looks) {
        running := false;
      }
      looks := looks + 1;
      b := running;
    }

    /**
      Waits for input. Answers without input are consumed and bring no events. Without a signal, and
      before the answers end, the wait ends only for input or a poll that failed.
     */
    method EventCheck() returns (ret: int)
      requires Valid()
      modifies this`running, this`looks, this`answers, this`consumed
      ensures Valid() && looks >= old(looks)
      ensures old(consumed) + old(answers) == consumed + answers
      ensures AllEvents(consumed) == AllEvents(old(consumed))
      ensures ret > 0 ==> running && answers != [] && answers[0].Ready?
      ensures ret <= 0 && running ==>
                consumed != [] && (consumed[|consumed| - 1].PollFailed? || consumed[|consumed| - 1].NoInput?)
      ensures running ==> old(running) && Silent(signals, old(looks), looks)
      ensures old(running) && Silent(signals, old(looks), looks) ==> running || answers == []
      ensures |answers| <= |old(answers)| && (ret <= 0 && running ==> |answers| < |old(answers)|)
    {
      hide Queue.Valid, AllEvents, PollOk, Silent, WatchesCounted;
      SilentNext(signals, looks, looks);
      var go := KeepRunning();
      while go
        invariant Valid() && looks > old(looks)
        invariant go == running
        invariant running ==> old(running) && Silent(signals, old(looks), looks)
        invariant old(running) && Silent(signals, old(looks), looks) ==> running || answers == []
        invariant old(consumed) + old(answers) == consumed + answers
        invariant |answers| <= |old(answers)|
        invariant AllEvents(consumed) == AllEvents(old(consumed))
        decreases |answers|, go
      {
        if answers == [] {
          running := false;
        } else if answers[0].Ready? {
          return 1;
        } else {
          var ret := answers[0];
          Consume();
          if !ret.TimedOut? {
            return -1;
          }
        }
        SilentNext(signals, old(looks), looks);
        go := KeepRunning();
      }
      return -1;
    }

    method Consume()
      requires Valid() && answers != []
      modifies this`answers, this`consumed
      ensures Valid() && answers == old(answers)[1..] && consumed == old(consumed) + [old(answers)[0]]
      ensures old(consumed) + old(answers) == consumed + answers
      ensures AllEvents(consumed) ==
              AllEvents(old(consumed)) + if old(answers)[0].Ready? then old(answers)[0].events else []
    {
      consumed := consumed + [answers[0]];
      answers := answers[1..];
      assert consumed[..|consumed| - 1] == old(consumed);
    }

    /** Decodes the record at offset i into a new queue entry, and returns the offset after it. */
    method QueueRecord(buffer: seq<Byte>, i: nat, ghost events: seq<Event>, ghost k: nat) returns (next: nat)
      requires queue.Valid() && buffer == EncodeAll(events) && k < |events| && i == |EncodeAll(events[..k])|
      modifies queue.repr
      ensures queue.Valid() && queue.Contents() == old(queue.Contents()) + [events[k]]
      ensures fresh(queue.repr - old(queue.repr))
      ensures i < next <= |buffer| && next == |EncodeAll(events[..k + 1])|
    {
      RecordInBuffer(events, k);
      var len := WordAt(buffer, i + 12);
      var event := new Entry(EventAt(buffer, i));
      queue.Enqueue(event);
      next := i + HEADER + len;
    }

    /** Decodes one buffer into the queue; the flag is looked at before each record. */
    method ReadEvents(buffer: seq<Byte>, ghost events: seq<Event>) returns (count: int)
      requires queue.Valid() && this !in queue.repr && buffer == EncodeAll(events)
      modifies this`running, this`looks, queue.repr
      ensures queue.Valid() && this !in queue.repr && fresh(queue.repr - old(queue.repr))
      ensures looks == old(looks) + if buffer == [] then 0 else count + 1
      ensures running <==> old(running) && Silent(signals, old(looks), looks)
      ensures buffer == [] ==> count == -1 && queue.Contents() == old(queue.Contents())
      ensures buffer != [] ==> 0 <= count <= |events| && queue.Contents() == old(queue.Contents()) + events[..count]
      ensures 0 <= count < |events| ==> !running
      ensures count > 0 ==> old(running) && Silent(signals, old(looks), looks - 1)
    {
      hide Queue.Valid, Encode, EncodeAll, Silent;
      SilentNext(signals, looks, looks);
      NothingEncoded(events);
      if |buffer| == 0 {
        return -1;
      }
      count := 0;
      var i := 0;
      var go := KeepRunning();
      while i < |buffer| && go
        invariant queue.Valid() && this !in queue.repr && go == running
        invariant 0 <= count <= |events| && i == |EncodeAll(events[..count])|
        invariant looks == old(looks) + count + 1
        invariant running <==> old(running) && Silent(signals, old(looks), looks)
        invariant count > 0 ==> old(running) && Silent(signals, old(looks), looks - 1)
        invariant queue.Contents() == old(queue.Contents()) + events[..count]
        invariant fresh(queue.repr - old(queue.repr))
        decreases |buffer| - i
      {
        i := QueueRecord(buffer, i, events, count);
        OneMoreQueued(old(queue.Contents()), events, count);
        count := count + 1;
        SilentNext(signals, old(looks), looks);
        go := KeepRunning();
      }
      if count < |events| {
        RecordInBuffer(events, count);
      }
    }

    /** The part of the handler that the loops depend on; an IN_IGNORED event gives up a watch. */
    method HandleEvent(event: Event)
      requires event.name != [] && WatchesCounted()
      modifies this`handled, this`watched
      ensures handled == old(handled) + [event] && WatchesCounted()
    {
      ReleasedNext(handled, event, givesUp);
      Modulo(initial + Added(additions, rounds) - Released(handled, givesUp), 0);
      hide Releases;
      var gaveUp := givesUp(|handled|);
      handled := handled + [event];
      if Releases(event, gaveUp) {
        watched := (watched + ULONG_RANGE - 1) % ULONG_RANGE;
      }
    }

    /** Takes the oldest entry out and handles it. */
    method HandleNext()
      requires queue.Valid() && this !in queue.repr && queue.nodes != [] && Named(queue.Contents())
      requires WatchesCounted()
      modifies this`handled, this`watched, queue.repr
      ensures queue.Valid() && queue.repr == old(queue.repr) && WatchesCounted()
      ensures handled == old(handled) + [old(queue.Contents())[0]]
      ensures queue.Contents() == old(queue.Contents())[1..]
    {
      hide WatchesCounted;
      var event := queue.Dequeue();
      HandleEvent(event.event);
    }

    /** Drains the queue in arrival order, whatever the flag says. */
    method ProcessHandleEvents()
      requires queue.Valid() && this !in queue.repr && Named(queue.Contents()) && WatchesCounted()
      modifies this`handled, this`watched, queue.repr
      ensures queue.Valid() && queue.nodes == [] && queue.repr == old(queue.repr) && WatchesCounted()
      ensures handled == old(handled) + old(queue.Contents())
    {
      hide *;
      var empty := queue.Empty();
      while !empty
        invariant queue.Valid() && (empty <==> queue.nodes == []) && queue.repr == old(queue.repr)
        invariant |queue.nodes| == |queue.Contents()| && Named(queue.Contents()) && WatchesCounted()
        invariant handled + queue.Contents() == old(handled) + old(queue.Contents())
        decreases |queue.nodes|
      {
        MoveFirst(handled, queue.Contents());
        HandleNext();
        empty := queue.Empty();
      }
      assert handled + [] == handled;
    }

    /** Decodes a buffer and handles what was decoded of it: all of it, unless a signal arrived. */
    method HandleBuffer(buffer: seq<Byte>, ghost events: seq<Event>) returns (rc: int)
      requires Valid() && queue.nodes == [] && buffer == EncodeAll(events) && Named(events)
      modifies this`running, this`looks, this`handled, this`watched, queue.repr
      ensures Valid() && queue.nodes == [] && fresh(queue.repr - old(queue.repr)) && looks >= old(looks)
      ensures running <==> old(running) && Silent(signals, old(looks), looks)
      ensures old(handled) <= handled && handled[|old(handled)|..] <= events
      ensures running ==> handled == old(handled) + events
      ensures rc < 0 <==> events == []
    {
      EncodeAllLength(events);
      hide Queue.Valid, EncodeAll, PollOk, WatchesCounted, Silent;
      rc := ReadEvents(buffer, events);
      assert events[..|events|] == events;
      if rc >= 0 {
        assert queue.Contents() == events[..rc];
        ProcessHandleEvents();
        assert handled[|old(handled)|..] == events[..rc];
      }
    }

    /** Reads one buffer that is ready, and handles what was decoded of it. */
    method ReadAndHandle() returns (rc: int)
      requires Valid() && queue.nodes == [] && CaughtUp() && answers != [] && answers[0].Ready?
      modifies this`running, this`looks, this`handled, this`watched, this`answers, this`consumed, queue.repr
      ensures Valid() && queue.nodes == [] && fresh(queue.repr - old(queue.repr)) && looks >= old(looks)
      ensures running <==> old(running) && Silent(signals, old(looks), looks)
      ensures answers == old(answers)[1..] && consumed == old(consumed) + [old(answers)[0]]
      ensures CaughtUp() || LostTail()
      ensures running ==> CaughtUp()
      ensures rc < 0 <==> old(answers)[0] == Ready([])
    {
      hide Queue.Valid, EncodeAll, AllEvents, WatchesCounted, Silent;
      ghost var events := answers[0].events;
      var buffer := EncodeAll(answers[0].events);  // what the kernel writes
      Consume();
      rc := HandleBuffer(buffer, events);
      LossIsTail(events);
    }

    lemma LossIsTail(events: seq<Event>)
      requires consumed != [] && consumed[|consumed| - 1] == Ready(events)
      requires AllEvents(consumed[..|consumed| - 1]) <= handled
      requires handled[|AllEvents(consumed[..|consumed| - 1])|..] <= events
      requires running ==> handled == AllEvents(consumed)
      ensures CaughtUp() || LostTail()
    {
      var before := AllEvents(consumed[..|consumed| - 1]);
      var k := |handled| - |before|;
      assert handled == before + events[..k];
      if k == |events| {
        assert events[..k] == events;
      }
    }

    /** One round of the outer loop, which begins and ends with an empty queue. */
    method PollOnce() returns (rc: int)
      requires Valid() && queue.nodes == [] && CaughtUp()
      modifies this`running, this`looks, this`handled, this`watched, this`answers, this`consumed, queue.repr
      ensures Valid() && queue.nodes == [] && fresh(queue.repr - old(queue.repr)) && looks >= old(looks)
      ensures old(consumed) + old(answers) == consumed + answers
      ensures CaughtUp() || LostTail()
      ensures running ==> old(running) && Silent(signals, old(looks), looks)
      ensures old(running) && Silent(signals, old(looks), looks) ==> CaughtUp() && (running || answers == [])
      ensures rc < 0 ==> consumed != [] && consumed[|consumed| - 1] == Ready([])
      ensures |answers| <= |old(answers)| && (running ==> |answers| < |old(answers)|)
    {
      hide Queue.Valid, Silent, WatchesCounted, AllEvents, PollOk, LostTail;
      rc := 0;
      var ready := EventCheck();
      ghost var m := looks;
      if ready > 0 {
        rc := ReadAndHandle();
      }
      SilentAppend(signals, old(looks), m, looks);
    }

    /** The discovery thread adds watches between two rounds. */
    method AddWatches()
      requires WatchesCounted()
      modifies this`watched, this`rounds
      ensures WatchesCounted() && rounds == old(rounds) + 1
    {
      Modulo(initial + Added(additions, rounds) - Released(handled, givesUp), additions(rounds));
      watched := (watched + additions(rounds)) % ULONG_RANGE;
      rounds := rounds + 1;
    }

    /**
      The outer loop. Over any run, each delivered event is handled exactly once, in arrival order,
      except that a signal during a read may cost the tail of that read. The loop ends only when the
      flag has fallen, no watch is left, or a read failed; without a signal, the flag stays until the
      answers end, and no event is lost.
     */
    method ProcessInotifyEvents() returns (rc: int)
      requires Valid() && queue.nodes == [] && CaughtUp()
      modifies this, queue.repr
      ensures Valid() && queue.nodes == [] && looks >= old(looks)
      ensures old(consumed) + old(answers) == consumed + answers
      ensures CaughtUp() || LostTail()
      ensures !running || watched == 0 || rc < 0
      ensures old(running) && Silent(signals, old(looks), looks) ==>
                CaughtUp() && (answers == [] || watched == 0 || rc < 0)
      ensures rc < 0 ==> consumed != [] && consumed[|consumed| - 1] == Ready([])
    {
      hide Queue.Valid, Silent, WatchesCounted, AllEvents, PollOk;
      rc := 0;
      SilentNext(signals, looks, looks);
      var go := KeepRunning();
      while go && watched > 0
        invariant Valid() && queue.nodes == [] && go == running && fresh(queue.repr - old(queue.repr))
        invariant looks > old(looks) && rc >= 0
        invariant go ==> CaughtUp()
        invariant running ==> old(running) && Silent(signals, old(looks), looks)
        invariant old(running) && Silent(signals, old(looks), looks) ==> CaughtUp() && (running || answers == [])
        invariant old(consumed) + old(answers) == consumed + answers
        invariant CaughtUp() || LostTail()
        decreases |answers|, go
      {
        ghost var m := looks;
        rc := PollOnce();
        SilentAppend(signals, old(looks), m, looks);
        if rc < 0 {
          break;
        }
        AddWatches();
        SilentNext(signals, old(looks), looks);
        go := KeepRunning();
      }
    }
  }
}
