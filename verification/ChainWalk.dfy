/**
  The chain under concurrency: one thread inserts, one store at a time, while another walks from
  `node` along `previous` without a lock. Every interleaving of their single loads and stores is a
  run of this state machine (sequential consistency).
 */
module ChainWalk {
  import opened CStrings
  import opened Wrappers
  import opened HashSpec

  type Id = nat  // an item's address: the position of its allocation

  datatype Cell = Cell(key: nat, value: CStr, previous: Option<Id>, next: Option<Id>)

  datatype Shared = Shared(heap: seq<Cell>, table: map<nat, Id>, node: Option<Id>, count: nat)

  /** The inserting thread's program point, named after the store or test it is about to make. */
  datatype Inserter =
    | Idle
    | Called(value: CStr)
    | TestSlot(item: Id)
    | StoreSlot(item: Id)
    | TestNode(item: Id)
    | StoreFirst(item: Id)
    | StoreNext(item: Id)
    | StorePrevious(item: Id)
    | StoreNode(item: Id)
    | StoreCount

  /** The walking thread's program point: at the loop test with `hi` loaded, or about to load `hi->previous`. */
  datatype Phase = Resting | AtTest(hi: Option<Id>) | BeforePrevious(at: Id)

  /** `walk`, `snapshot` and `ended` only record what happened; the thread never reads them. */
  datatype Reader = Reader(phase: Phase, walk: nat, snapshot: seq<Id>, visited: seq<CStr>, ended: bool)

  /**
    `calls` records the arguments of the insert calls that were made, `history` those of the calls that
    took effect, and `published` the items made reachable.
   */
  datatype State = State(sh: Shared, ins: Inserter, rd: Reader, published: seq<Id>, history: seq<CStr>, calls: seq<CStr>)

  ghost predicate Init(s: State) {
    s == State(Shared([], map[], None, 0), Idle, Reader(Resting, 0, [], [], false), [], [], [])
  }

  // ---------- Steps ----------

  /** The addresses the inserter is about to dereference are allocated. */
  predicate InserterSafe(s: State) {
    match s.ins
    case Idle => true
    case Called(_) => true
    case StoreCount => true
    case StoreFirst(item) => 
      item < |s.sh.heap| && s.sh.heap[item].key in s.sh.table && s.sh.table[s.sh.heap[item].key] < |s.sh.heap|
    case StoreNext(item) => item < |s.sh.heap| && s.sh.node.Some? && s.sh.node.value < |s.sh.heap|
    case _ => s.ins.item < |s.sh.heap|
  }

  function Return(s: State, v: CStr): State {
    s.(ins := Idle, history := s.history + [v])
  }

  function Published(s: State, item: Id): State
    requires item < |s.sh.heap|
  {
    s.(sh := s.sh.(node := Some(item)), ins := StoreCount, published := s.published + [item],
       history := s.history + [s.sh.heap[item].value])
  }

  /** The inserter's next action; `arg` is the argument of the call it makes when idle. */
  function InserterNext(s: State, arg: CStr): State
    requires InserterSafe(s)
  {
    var heap := s.sh.heap;
    match s.ins
    case Idle => s.(ins := Called(arg), calls := s.calls + [arg])
    case Called(v) =>
      if s.sh.count == TABLE_SIZE || !Storable(v) then Return(s, v)
      else s.(sh := s.sh.(heap := heap + [Cell(Key(v), v, None, None)]), ins := TestSlot(|heap|))
    case TestSlot(item) =>
      if heap[item].key in s.sh.table then Return(s, heap[item].value) else s.(ins := StoreSlot(item))
    case StoreSlot(item) => s.(sh := s.sh.(table := s.sh.table[heap[item].key := item]), ins := TestNode(item))
    case TestNode(item) => s.(ins := if s.sh.node.None? then StoreFirst(item) else StoreNext(item))
    case StoreFirst(item) => Published(s, s.sh.table[heap[item].key])
    case StoreNext(item) =>
      var n := s.sh.node.value;
      s.(sh := s.sh.(heap := heap[n := heap[n].(next := Some(item))]), ins := StorePrevious(item))
    case StorePrevious(item) =>
      s.(sh := s.sh.(heap := heap[item := heap[item].(previous := s.sh.node)]), ins := StoreNode(item))
    case StoreNode(item) => Published(s, item)
    case StoreCount => s.(sh := s.sh.(count := s.sh.count + 1), ins := Idle)
  }

  predicate ReaderSafe(s: State) {
    match s.rd.phase
    case AtTest(Some(hi)) => hi < |s.sh.heap|
    case BeforePrevious(at) => at < |s.sh.heap|
    case _ => true
  }

  /** The walker's next action; `stop` says whether it breaks off at the item it looks at. */
  function ReaderNext(s: State, stop: bool): Reader
    requires ReaderSafe(s)
  {
    match s.rd.phase
    case Resting => Reader(AtTest(s.sh.node), s.rd.walk + 1, s.published, [], false)
    case AtTest(None) => s.rd.(phase := Resting, ended := true)
    case AtTest(Some(hi)) =>
      s.rd.(visited := s.rd.visited + [s.sh.heap[hi].value], phase := if stop then Resting else BeforePrevious(hi))
    case BeforePrevious(at) => s.rd.(phase := AtTest(s.sh.heap[at].previous))
  }

  ghost predicate InserterStep(s: State, s': State) {
    InserterSafe(s) && exists arg :: s' == InserterNext(s, arg)
  }

  ghost predicate ReaderStep(s: State, s': State) {
    ReaderSafe(s) && exists stop :: s' == s.(rd := ReaderNext(s, stop))
  }

  ghost predicate Next(s: State, s': State) {
    InserterStep(s, s') || ReaderStep(s, s')
  }

  ghost predicate IsRun(run: seq<State>) {
    && run != []
    && Init(run[0])
    && forall i :: 0 <= i < |run| - 1 ==> StepAt(run, i)
  }

  ghost predicate StepAt(run: seq<State>, i: nat)
    requires i + 1 < |run|
  {
    Next(run[i], run[i + 1])
  }

  // ---------- The invariant ----------

  function ValuesOf(heap: seq<Cell>, ids: seq<Id>): (vals: seq<CStr>)
    requires forall i :: 0 <= i < |ids| ==> ids[i] < |heap|
    ensures |vals| == |ids|
    ensures forall i :: 0 <= i < |ids| ==> vals[i] == heap[ids[i]].value
  {
    seq(|ids|, i requires 0 <= i < |ids| => heap[ids[i]].value)
  }

  /** The item `back` places from the newest of `ids`, if there are that many. */
  function FromEnd(ids: seq<Id>, back: nat): Option<Id> {
    if back < |ids| then Some(ids[|ids| - 1 - back]) else None
  }

  ghost predicate Linked(heap: seq<Cell>, ids: seq<Id>, i: nat)
    requires i < |ids|
  {
    && ids[i] < |heap|
    && heap[ids[i]].previous == (if i == 0 then None else Some(ids[i - 1]))
    && (i + 1 < |ids| ==> heap[ids[i]].next == Some(ids[i + 1]))
  }

  /** From `node`, `previous` leads through exactly `ids`, newest first. */
  ghost predicate ChainOk(heap: seq<Cell>, node: Option<Id>, ids: seq<Id>) {
    && node == FromEnd(ids, 0)
    && (forall i :: 0 <= i < |ids| ==> Linked(heap, ids, i))
    && (forall i, j :: 0 <= i < j < |ids| ==> ids[i] != ids[j])
  }

  ghost predicate HasItem(ins: Inserter) {
    !(ins.Idle? || ins.Called? || ins.StoreCount?)
  }

  ghost predicate InSlot(ins: Inserter) {
    HasItem(ins) && !ins.TestSlot? && !ins.StoreSlot?
  }

  /** The item being inserted is unreachable, and its links match the program point. */
  ghost predicate PendingOk(heap: seq<Cell>, node: Option<Id>, ids: seq<Id>, ins: Inserter) {
    HasItem(ins) ==>
      && ins.item < |heap|
      && ins.item !in ids
      && heap[ins.item].previous == (if ins.StoreNode? then node else None)
      && (ins.StoreFirst? ==> ids == [])
      && (ins.StoreNext? || ins.StorePrevious? || ins.StoreNode? ==> ids != [])
      && (ins.StorePrevious? || ins.StoreNode? ==>
            node.Some? && node.value < |heap| && heap[node.value].next == Some(ins.item))
  }

  ghost predicate ItemsOk(heap: seq<Cell>) {
    forall a :: 0 <= a < |heap| ==> heap[a].key == Key(heap[a].value) && Storable(heap[a].value)
  }

  ghost predicate Owns(heap: seq<Cell>, table: map<nat, Id>, a: Id) {
    a < |heap| && heap[a].key in table && table[heap[a].key] == a
  }

  ghost predicate SlotOk(heap: seq<Cell>, table: map<nat, Id>, ids: seq<Id>, ins: Inserter, k: nat) {
    k in table ==>
      && table[k] < |heap| && heap[table[k]].key == k
      && (table[k] in ids || (InSlot(ins) && table[k] == ins.item))
  }

  /** Slots hold the published items, and the pending one once its slot is stored. */
  ghost predicate SlotsOk(heap: seq<Cell>, table: map<nat, Id>, ids: seq<Id>, ins: Inserter) {
    && (forall a :: a in ids ==> Owns(heap, table, a))
    && (InSlot(ins) ==> Owns(heap, table, ins.item))
    && (ins.StoreSlot? ==> ins.item < |heap| && heap[ins.item].key !in table)
    && (forall k :: SlotOk(heap, table, ids, ins, k))
  }

  /** What the walker has visited is the newest part of its snapshot, and it is positioned right after it. */
  ghost predicate ReaderOk(heap: seq<Cell>, ids: seq<Id>, rd: Reader) {
    && rd.snapshot <= ids
    && |rd.visited| <= |rd.snapshot|
    && (forall i :: 0 <= i < |rd.visited| ==> VisitedOk(heap, rd, i))
    && match rd.phase
       case Resting => rd.ended ==> |rd.visited| == |rd.snapshot|
       case AtTest(hi) => !rd.ended && hi == FromEnd(rd.snapshot, |rd.visited|)
       case BeforePrevious(at) => !rd.ended && rd.visited != [] && Some(at) == FromEnd(rd.snapshot, |rd.visited| - 1)
  }

  ghost predicate VisitedOk(heap: seq<Cell>, rd: Reader, i: nat)
    requires i < |rd.visited| <= |rd.snapshot|
  {
    var a := rd.snapshot[|rd.snapshot| - 1 - i];
    a < |heap| && rd.visited[i] == heap[a].value
  }

  ghost predicate EffectOk(heap: seq<Cell>, ids: seq<Id>, history: seq<CStr>) {
    && (forall i :: 0 <= i < |ids| ==> ids[i] < |heap|)
    && ValuesOf(heap, ids) == Replay([], history)
  }

  ghost predicate Inv(s: State) {
    && ChainOk(s.sh.heap, s.sh.node, s.published)
    && PendingOk(s.sh.heap, s.sh.node, s.published, s.ins)
    && ItemsOk(s.sh.heap)
    && SlotsOk(s.sh.heap, s.sh.table, s.published, s.ins)
    && ReaderOk(s.sh.heap, s.published, s.rd)
    && s.sh.count + (if s.ins.StoreCount? then 1 else 0) == |s.published|
    && EffectOk(s.sh.heap, s.published, s.history)
  }

  lemma InvImpliesSafe(s: State)
    requires Inv(s)
    ensures InserterSafe(s) && ReaderSafe(s)
  {
    hide Storable, Key, Replay, VisitedOk;
    var rd, n := s.rd, |s.rd.snapshot|;
    if rd.phase.BeforePrevious? {
      assert rd.phase.at == s.published[n - |rd.visited|];
    }
    if rd.phase.AtTest? && rd.phase.hi.Some? {
      assert rd.phase.hi.value == s.published[n - |rd.visited| - 1];
    }
  }

  // ---------- Every step keeps the invariant ----------

  /** The table's answer to "is there an item with key k" is the abstract slot's. */
  lemma SlotAgrees(s: State, k: nat)
    requires Inv(s) && !InSlot(s.ins)
    ensures k in s.sh.table <==> Slot(Replay([], s.history), k).Some?
  {
    var vals := ValuesOf(s.sh.heap, s.published);
    SlotMeaning(vals, k);
    assert SlotOk(s.sh.heap, s.sh.table, s.published, s.ins, k);
    if k in s.sh.table {
      var i :| 0 <= i < |s.published| && s.published[i] == s.sh.table[k];
      assert Key(vals[i]) == k;
    }
    if Slot(vals, k).Some? {
      var i :| 0 <= i < |vals| && Key(vals[i]) == k;
      assert Owns(s.sh.heap, s.sh.table, s.published[i]);
    }
  }

  lemma HistoryStep(history: seq<CStr>, v: CStr)
    ensures Replay([], history + [v]) == Insert(Replay([], history), v)
  {
    assert (history + [v])[..|history|] == history;
  }

  /** Slots do not depend on which of the program points before the slot store the inserter is at. */
  lemma SlotsUnmoved(heap: seq<Cell>, table: map<nat, Id>, ids: seq<Id>, ins: Inserter, ins': Inserter)
    requires SlotsOk(heap, table, ids, ins)
    requires InSlot(ins) == InSlot(ins') && (InSlot(ins) ==> ins.item == ins'.item)
    requires ins'.StoreSlot? ==> ins'.item < |heap| && heap[ins'.item].key !in table
    ensures SlotsOk(heap, table, ids, ins')
  {
    forall k ensures SlotOk(heap, table, ids, ins', k) {
      assert SlotOk(heap, table, ids, ins, k);
    }
  }

  /** Everything but the chain survives a change of links and a longer heap. */
  lemma HeapChange(s: State, heap': seq<Cell>)
    requires Inv(s) && |heap'| >= |s.sh.heap|
    requires forall a :: 0 <= a < |s.sh.heap| ==>
               heap'[a].value == s.sh.heap[a].value && heap'[a].key == s.sh.heap[a].key
    ensures SlotsOk(heap', s.sh.table, s.published, s.ins)
    ensures ReaderOk(heap', s.published, s.rd)
    ensures EffectOk(heap', s.published, s.history)
  {
    var heap := s.sh.heap;
    assert ValuesOf(heap', s.published) == ValuesOf(heap, s.published);
    forall a | a in s.published ensures Owns(heap', s.sh.table, a) {
      assert Owns(heap, s.sh.table, a);
    }
    forall k ensures SlotOk(heap', s.sh.table, s.published, s.ins, k) {
      assert SlotOk(heap, s.sh.table, s.published, s.ins, k);
    }
    forall i | 0 <= i < |s.rd.visited| ensures VisitedOk(heap', s.rd, i) {
      assert VisitedOk(heap, s.rd, i);
    }
  }

  /** A call that returns without storing anything took effect as an insertion that changes nothing. */
  lemma ReturnKeepsInv(s: State, v: CStr)
    requires Inv(s) && (s.ins.Called? || s.ins.TestSlot?)
    requires Insert(Replay([], s.history), v) == Replay([], s.history)
    ensures Inv(Return(s, v))
  {
    HistoryStep(s.history, v);
    SlotsUnmoved(s.sh.heap, s.sh.table, s.published, s.ins, Idle);
  }

  lemma {:induction false} CalledKeepsInv(s: State, arg: CStr)
    requires Inv(s) && s.ins.Called?
    ensures Inv(InserterNext(s, arg))
  {
    NeverFull(s.history);
    var v, heap := s.ins.value, s.sh.heap;
    if s.sh.count == TABLE_SIZE || !Storable(v) {
      ReturnKeepsInv(s, v);
    } else {
      AllocationKeepsInv(s, v);
    }
  }

  lemma AllocationKeepsInv(s: State, v: CStr)
    requires Inv(s) && s.ins == Called(v) && Storable(v)
    ensures var heap := s.sh.heap;
      Inv(s.(sh := s.sh.(heap := heap + [Cell(Key(v), v, None, None)]), ins := TestSlot(|heap|)))
  {
    var heap := s.sh.heap;
    var heap' := heap + [Cell(Key(v), v, None, None)];
    HeapChange(s, heap');
    SlotsUnmoved(heap', s.sh.table, s.published, s.ins, TestSlot(|heap|));
    assert |heap| !in s.published by {
      assert forall a :: a in s.published ==> Owns(heap, s.sh.table, a);
    }
    hide Key, Storable, Replay, ReaderOk, EffectOk, SlotsOk;
    forall i | 0 <= i < |s.published| ensures Linked(heap', s.published, i) {
      assert Linked(heap, s.published, i);
    }
  }

  lemma {:induction false} TestSlotKeepsInv(s: State, arg: CStr)
    requires Inv(s) && s.ins.TestSlot?
    ensures Inv(InserterNext(s, arg))
  {
    var c := s.sh.heap[s.ins.item];
    SlotAgrees(s, c.key);
    if c.key in s.sh.table {
      ReturnKeepsInv(s, c.value);
    } else {
      SlotsUnmoved(s.sh.heap, s.sh.table, s.published, s.ins, StoreSlot(s.ins.item));
    }
  }

  lemma StoreSlotKeepsInv(s: State, arg: CStr)
    requires Inv(s) && s.ins.StoreSlot?
    ensures Inv(InserterNext(s, arg))
  {
    var s' := InserterNext(s, arg);
    forall a | a in s.published ensures Owns(s.sh.heap, s'.sh.table, a) {
      assert Owns(s.sh.heap, s.sh.table, a);
    }
    forall k ensures SlotOk(s.sh.heap, s'.sh.table, s.published, s'.ins, k) {
      assert SlotOk(s.sh.heap, s.sh.table, s.published, s.ins, k);
    }
  }

  /** A store to the newest item's `next`, or to a link of an unpublished item, leaves the chain as it was. */
  lemma ChainUnmoved(heap: seq<Cell>, heap': seq<Cell>, node: Option<Id>, ids: seq<Id>)
    requires ChainOk(heap, node, ids) && |heap'| == |heap|
    requires forall a :: 0 <= a < |heap| && a in ids ==> heap'[a].previous == heap[a].previous
    requires forall a :: 0 <= a < |heap| && a in ids && Some(a) != node ==> heap'[a].next == heap[a].next
    ensures ChainOk(heap', node, ids)
  {
    forall i | 0 <= i < |ids| ensures Linked(heap', ids, i) {
      assert Linked(heap, ids, i);
      assert i < |ids| - 1 ==> ids[i] != ids[|ids| - 1];
    }
  }

  lemma TestNodeKeepsInv(s: State, arg: CStr)
    requires Inv(s) && s.ins.TestNode?
    ensures Inv(InserterNext(s, arg))
  {
    hide Storable, Key, Replay, ReaderOk, EffectOk, Linked;
    SlotsUnmoved(s.sh.heap, s.sh.table, s.published, s.ins, InserterNext(s, arg).ins);
  }

  /** The stores to the two links change nothing but links. */
  lemma LinkStoreIs(s: State, arg: CStr)
    requires Inv(s) && (s.ins.StoreNext? || s.ins.StorePrevious?)
    ensures InserterSafe(s)
    ensures var s' := InserterNext(s, arg);
      && s' == s.(sh := s.sh.(heap := s'.sh.heap), ins := s'.ins) && |s'.sh.heap| == |s.sh.heap|
      && InSlot(s'.ins) && s'.ins.item == s.ins.item
      && (forall a :: 0 <= a < |s.sh.heap| ==>
            s'.sh.heap[a].value == s.sh.heap[a].value && s'.sh.heap[a].key == s.sh.heap[a].key)
      && ItemsOk(s'.sh.heap)
  {
    InvImpliesSafe(s);
    hide Storable, Key, ReaderOk, EffectOk, SlotsOk, ChainOk;
  }

  /** The stores to the two links leave every published item's `previous` alone. */
  lemma {:induction false} LinkStoreKeepsInv(s: State, arg: CStr)
    requires Inv(s) && (s.ins.StoreNext? || s.ins.StorePrevious?)
    ensures Inv(InserterNext(s, arg))
  {
    LinkStoreIs(s, arg);
    var s' := InserterNext(s, arg);
    hide InserterNext, ReaderOk, EffectOk, ItemsOk, ChainOk, SlotsOk, PendingOk;
    LinkStoreKeepsChain(s, arg);
    HeapChange(s, s'.sh.heap);
    SlotsUnmoved(s'.sh.heap, s.sh.table, s.published, s.ins, s'.ins);
  }

  lemma {:induction false} LinkStoreKeepsChain(s: State, arg: CStr)
    requires Inv(s) && (s.ins.StoreNext? || s.ins.StorePrevious?)
    ensures InserterSafe(s)
    ensures ChainOk(InserterNext(s, arg).sh.heap, s.sh.node, s.published)
    ensures PendingOk(InserterNext(s, arg).sh.heap, s.sh.node, s.published, InserterNext(s, arg).ins)
  {
    InvImpliesSafe(s);
    ChainUnmoved(s.sh.heap, InserterNext(s, arg).sh.heap, s.sh.node, s.published);
    assert s.published[|s.published| - 1] in s.published;
  }

  /** The item about to be published has a key that no published item has. */
  lemma PublishedKeyIsNew(s: State)
    requires Inv(s) && InSlot(s.ins)
    ensures Insert(Replay([], s.history), s.sh.heap[s.ins.item].value)
            == Replay([], s.history) + [s.sh.heap[s.ins.item].value]
  {
    var vals, v := ValuesOf(s.sh.heap, s.published), s.sh.heap[s.ins.item].value;
    NeverFull(s.history);
    SlotMeaning(vals, Key(v));
    forall i | 0 <= i < |vals| ensures Key(vals[i]) != Key(v) {
      assert Owns(s.sh.heap, s.sh.table, s.published[i]);
    }
  }

  lemma ChainExtends(heap: seq<Cell>, node: Option<Id>, ids: seq<Id>, item: Id)
    requires ChainOk(heap, node, ids) && item !in ids && item < |heap|
    requires heap[item].previous == node
    requires node.Some? ==> node.value < |heap| && heap[node.value].next == Some(item)
    ensures ChainOk(heap, Some(item), ids + [item])
  {
    forall i | 0 <= i <= |ids| ensures Linked(heap, ids + [item], i) {
      if i < |ids| {
        assert Linked(heap, ids, i);
      }
    }
  }

  lemma PublishKeepsChain(s: State)
    requires Inv(s) && (s.ins.StoreFirst? || s.ins.StoreNode?)
    ensures ChainOk(s.sh.heap, Some(s.ins.item), s.published + [s.ins.item])
  {
    hide Linked, SlotsOk, ItemsOk, ReaderOk, EffectOk;
    ChainExtends(s.sh.heap, s.sh.node, s.published, s.ins.item);
  }

  lemma LongerChainKeepsReader(heap: seq<Cell>, ids: seq<Id>, item: Id, rd: Reader)
    requires ReaderOk(heap, ids, rd)
    ensures ReaderOk(heap, ids + [item], rd)
  {
    hide VisitedOk, FromEnd;
  }

  lemma EffectGrows(heap: seq<Cell>, ids: seq<Id>, item: Id, history: seq<CStr>)
    requires EffectOk(heap, ids, history) && item < |heap|
    requires Insert(Replay([], history), heap[item].value) == Replay([], history) + [heap[item].value]
    ensures EffectOk(heap, ids + [item], history + [heap[item].value])
  {
    HistoryStep(history, heap[item].value);
    hide Replay, Insert;
    assert ValuesOf(heap, ids + [item]) == ValuesOf(heap, ids) + [heap[item].value];
  }

  lemma PublishIs(s: State, arg: CStr)
    requires Inv(s) && (s.ins.StoreFirst? || s.ins.StoreNode?)
    ensures InserterSafe(s) && s.ins.item < |s.sh.heap| && InserterNext(s, arg) == Published(s, s.ins.item)
  {
    InvImpliesSafe(s);
    hide ChainOk, ItemsOk, ReaderOk, EffectOk, SlotOk;
  }

  /** The store to `node` publishes the item, and is where the call takes effect. */
  lemma PublishKeepsInv(s: State, arg: CStr)
    requires Inv(s) && (s.ins.StoreFirst? || s.ins.StoreNode?)
    ensures Inv(InserterNext(s, arg))
  {
    PublishIs(s, arg);
    PublishedKeyIsNew(s);
    hide ChainOk, SlotsOk, ItemsOk, ReaderOk, EffectOk, InserterNext, Insert, Replay;
    PublishKeepsChain(s);
    PublishKeepsSlots(s);
    LongerChainKeepsReader(s.sh.heap, s.published, s.ins.item, s.rd);
    EffectGrows(s.sh.heap, s.published, s.ins.item, s.history);
  }

  lemma PublishKeepsSlots(s: State)
    requires Inv(s) && InSlot(s.ins)
    ensures SlotsOk(s.sh.heap, s.sh.table, s.published + [s.ins.item], StoreCount)
  {
    forall k ensures SlotOk(s.sh.heap, s.sh.table, s.published + [s.ins.item], StoreCount, k) {
      assert SlotOk(s.sh.heap, s.sh.table, s.published, s.ins, k);
    }
  }

  lemma InserterKeepsInv(s: State, arg: CStr)
    requires Inv(s) && InserterSafe(s)
    ensures Inv(InserterNext(s, arg))
  {
    match s.ins
    case Called(_) => CalledKeepsInv(s, arg);
    case TestSlot(_) => TestSlotKeepsInv(s, arg);
    case StoreSlot(_) => StoreSlotKeepsInv(s, arg);
    case StoreFirst(_) => PublishKeepsInv(s, arg);
    case StoreNode(_) => PublishKeepsInv(s, arg);
    case Idle => SlotsUnmoved(s.sh.heap, s.sh.table, s.published, s.ins, Called(arg));
    case StoreCount => SlotsUnmoved(s.sh.heap, s.sh.table, s.published, s.ins, Idle);
    case TestNode(_) => TestNodeKeepsInv(s, arg);
    case _ => LinkStoreKeepsInv(s, arg);
  }

  /** Looking at the item `hi` adds the next value of the snapshot. */
  lemma VisitKeepsReader(s: State, stop: bool)
    requires Inv(s) && s.rd.phase.AtTest? && s.rd.phase.hi.Some? && ReaderSafe(s)
    ensures ReaderOk(s.sh.heap, s.published, ReaderNext(s, stop))
  {
    hide PendingOk, SlotsOk, ItemsOk, EffectOk, ChainOk;
    var rd, rd' := s.rd, ReaderNext(s, stop);
    forall i | 0 <= i < |rd'.visited| ensures VisitedOk(s.sh.heap, rd', i) {
      if i < |rd.visited| {
        assert VisitedOk(s.sh.heap, rd, i);
      }
    }
  }

  /** Following `previous` leads to the next older item of the snapshot, whatever was inserted since. */
  lemma PreviousKeepsReader(s: State, stop: bool)
    requires Inv(s) && s.rd.phase.BeforePrevious? && ReaderSafe(s)
    ensures ReaderOk(s.sh.heap, s.published, ReaderNext(s, stop))
  {
    hide PendingOk, SlotsOk, ItemsOk, EffectOk;
    var rd, rd' := s.rd, ReaderNext(s, stop);
    var m := |rd.snapshot| - |rd.visited|;
    assert rd.phase.at == rd.snapshot[m] == s.published[m];
    assert Linked(s.sh.heap, s.published, m);
    forall i | 0 <= i < |rd'.visited| ensures VisitedOk(s.sh.heap, rd', i) {
      assert VisitedOk(s.sh.heap, rd, i);
    }
  }

  lemma ReaderKeepsInv(s: State, stop: bool)
    requires Inv(s) && ReaderSafe(s)
    ensures Inv(s.(rd := ReaderNext(s, stop)))
  {
    match s.rd.phase
    case AtTest(Some(hi)) => VisitKeepsReader(s, stop);
    case BeforePrevious(at) => PreviousKeepsReader(s, stop);
    case AtTest(None) =>
      var rd' := s.rd.(phase := Resting, ended := true);
      forall i | 0 <= i < |s.rd.visited| ensures VisitedOk(s.sh.heap, rd', i) {
        assert VisitedOk(s.sh.heap, s.rd, i);
      }
    case Resting =>
  }

  /** Every state of every interleaving satisfies the invariant. */
  lemma {:induction false} RunKeepsInv(run: seq<State>, i: nat)
    requires IsRun(run) && i < |run|
    ensures Inv(run[i])
  {
    if i == 0 {
      assert ValuesOf([], []) == [];
    } else {
      RunKeepsInv(run, i - 1);
      var s, s' := run[i - 1], run[i];
      assert StepAt(run, i - 1);
      if InserterStep(s, s') {
        var arg :| s' == InserterNext(s, arg);
        InserterKeepsInv(s, arg);
      } else {
        var stop :| s' == s.(rd := ReaderNext(s, stop));
        ReaderKeepsInv(s, stop);
      }
    }
  }

  // ---------- The calls that were made ----------

  /** The values of the published items, oldest first. */
  ghost function PublishedValues(s: State): seq<CStr> {
    if forall i :: 0 <= i < |s.published| ==> s.published[i] < |s.sh.heap| then ValuesOf(s.sh.heap, s.published) else []
  }

  /** The calls that have taken effect: all that were made, but for one that has not got that far. */
  function CallsDone(s: State): seq<CStr> {
    if s.ins.Idle? || s.ins.StoreCount? || s.calls == [] then s.calls else s.calls[..|s.calls| - 1]
  }

  /** The argument of the call in progress, before it takes effect. */
  function InProgress(s: State): seq<CStr> {
    match s.ins
    case Idle => []
    case StoreCount => []
    case Called(v) => [v]
    case _ => if s.ins.item < |s.sh.heap| then [s.sh.heap[s.ins.item].value] else []
  }

  /** No call is lost: those that took effect and the one in progress are those that were made, in order. */
  ghost predicate CallsOk(s: State) {
    s.calls == s.history + InProgress(s)
  }

  lemma PublishKeepsCalls(s: State, arg: CStr)
    requires Inv(s) && CallsOk(s) && (s.ins.StoreFirst? || s.ins.StoreNode?)
    ensures InserterSafe(s) && CallsOk(InserterNext(s, arg))
  {
    PublishIs(s, arg);
    hide Inv, InserterNext, InserterSafe;
    assert s.calls + [] == s.calls;
  }

  lemma InserterKeepsCalls(s: State, arg: CStr)
    requires Inv(s) && InserterSafe(s) && CallsOk(s)
    ensures CallsOk(InserterNext(s, arg))
  {
    if s.ins.StoreFirst? || s.ins.StoreNode? {
      hide *;
      PublishKeepsCalls(s, arg);
    } else {
      hide Inv, Storable, Key;
      assert s.calls + [] == s.calls;
    }
  }

  lemma StepKeepsCalls(s: State, s': State)
    requires Inv(s) && CallsOk(s) && Next(s, s')
    ensures CallsOk(s')
  {
    hide Inv, InserterNext, InserterSafe, ReaderNext, ReaderSafe;
    if InserterStep(s, s') {
      var arg :| s' == InserterNext(s, arg);
      hide CallsOk;
      InserterKeepsCalls(s, arg);
    }
  }

  lemma {:induction false} RunKeepsCalls(run: seq<State>, i: nat)
    requires IsRun(run) && i < |run|
    ensures CallsOk(run[i])
  {
    hide *;
    if i > 0 {
      RunKeepsCalls(run, i - 1);
      RunKeepsInv(run, i - 1);
      StepOfRun(run, i);
      StepKeepsCalls(run[i - 1], run[i]);
    } else {
      FirstState(run);
    }
  }

  lemma StepOfRun(run: seq<State>, i: nat)
    requires IsRun(run) && 0 < i < |run|
    ensures Next(run[i - 1], run[i])
  {
    assert StepAt(run, i - 1);
  }

  lemma FirstState(run: seq<State>)
    requires IsRun(run)
    ensures run != [] && CallsOk(run[0])
  {
  }

  /** In every interleaving, the published values are what the calls that were made amount to, but for one in progress. */
  lemma CallsTakeEffect(run: seq<State>, i: nat)
    requires IsRun(run) && i < |run|
    ensures run[i].history == CallsDone(run[i])
    ensures PublishedValues(run[i]) == Replay([], CallsDone(run[i]))
    ensures run[i].ins.Idle? || run[i].ins.StoreCount? ==> CallsDone(run[i]) == run[i].calls
  {
    RunKeepsCalls(run, i);
    RunKeepsInv(run, i);
    hide IsRun, Replay, ChainOk, SlotsOk, ItemsOk, ReaderOk;
    var s := run[i];
    if !s.ins.Idle? && !s.ins.StoreCount? {
      assert |InProgress(s)| == 1;
      assert s.calls[..|s.calls| - 1] == s.history;
    } else {
      assert s.history + [] == s.history;
    }
  }

  /** How many steps a call can still make. */
  function CallRank(ins: Inserter): nat {
    match ins
    case Idle => 0
    case StoreCount => 1
    case StoreFirst(_) => 2
    case StoreNode(_) => 2
    case StorePrevious(_) => 3
    case StoreNext(_) => 4
    case TestNode(_) => 5
    case StoreSlot(_) => 6
    case TestSlot(_) => 7
    case Called(_) => 8
  }

  /** The inserter's own steps among steps i, ..., j - 1 of the run. */
  function InserterSteps(run: seq<State>, i: nat, j: nat): nat
    requires i <= j < |run|
  {
    if i == j then 0 else InserterSteps(run, i, j - 1) + if run[j - 1].ins != run[j].ins then 1 else 0
  }

  lemma CallAdvances(s: State, arg: CStr)
    requires InserterSafe(s)
    ensures var s' := InserterNext(s, arg);
      if s.ins.Idle? then s'.ins == Called(arg) && s'.calls == s.calls + [arg]
      else CallRank(s'.ins) < CallRank(s.ins) && s'.calls == s.calls
  {
    hide Storable, Key;
  }

  lemma StepAdvances(s: State, s': State)
    requires Next(s, s')
    ensures |s.calls| <= |s'.calls|
    ensures |s'.calls| == |s.calls| ==> s'.ins == s.ins || CallRank(s'.ins) < CallRank(s.ins)
  {
    if InserterStep(s, s') {
      var arg :| s' == InserterNext(s, arg);
      CallAdvances(s, arg);
      hide InserterNext;
    }
  }

  lemma {:induction false} CallsOnlyGrow(run: seq<State>, i: nat, j: nat)
    requires IsRun(run) && i <= j < |run|
    ensures |run[i].calls| <= |run[j].calls|
  {
    if i < j {
      CallsOnlyGrow(run, i, j - 1);
      assert StepAt(run, j - 1);
      StepAdvances(run[j - 1], run[j]);
    }
  }

  /** A call makes at most eight steps, whatever the walker does, before it has returned. */
  lemma {:induction false} CallTerminates(run: seq<State>, i: nat, j: nat)
    requires IsRun(run) && i <= j < |run| && |run[j].calls| == |run[i].calls|
    ensures InserterSteps(run, i, j) + CallRank(run[j].ins) <= CallRank(run[i].ins) <= 8
  {
    if i < j {
      CallsOnlyGrow(run, i, j - 1);
      assert StepAt(run, j - 1);
      StepAdvances(run[j - 1], run[j]);
      hide IsRun, Next;
      CallTerminates(run, i, j - 1);
    }
  }

  // ---------- What a walk sees ----------

  /** Values never change once allocated, and a walk's snapshot lasts as long as the walk. */
  ghost predicate Extends(s: State, s': State) {
    && |s.sh.heap| <= |s'.sh.heap|
    && (forall a :: 0 <= a < |s.sh.heap| ==> s'.sh.heap[a].value == s.sh.heap[a].value)
    && s.rd.walk <= s'.rd.walk
    && (s.rd.walk == s'.rd.walk ==> s'.rd.snapshot == s.rd.snapshot)
  }

  lemma StepExtends(s: State, s': State)
    requires Next(s, s')
    ensures Extends(s, s')
  {
    if InserterStep(s, s') {
      var arg :| s' == InserterNext(s, arg);
    }
  }

  lemma {:induction false} RunExtends(run: seq<State>, i: nat, j: nat)
    requires IsRun(run) && i <= j < |run|
    ensures Extends(run[i], run[j])
  {
    if i < j {
      RunExtends(run, i, j - 1);
      assert StepAt(run, j - 1);
      StepExtends(run[j - 1], run[j]);
    }
  }

  /** Step i is the walker's load of `node`. */
  ghost predicate StartsWalk(run: seq<State>, i: nat) {
    i + 1 < |run| && run[i].rd.phase.Resting? && run[i].rd != run[i + 1].rd
  }

  lemma StartTakesSnapshot(run: seq<State>, i: nat)
    requires IsRun(run) && StartsWalk(run, i)
    ensures run[i + 1].rd == Reader(AtTest(run[i].sh.node), run[i].rd.walk + 1, run[i].published, [], false)
  {
    assert StepAt(run, i);
    InserterLeavesReader(run[i], run[i + 1]);
  }

  lemma InserterLeavesReader(s: State, s': State)
    ensures InserterStep(s, s') ==> s'.rd == s.rd
  {
  }

  lemma InvParts(run: seq<State>, i: nat)
    requires IsRun(run) && i < |run|
    ensures ReaderOk(run[i].sh.heap, run[i].published, run[i].rd)
    ensures EffectOk(run[i].sh.heap, run[i].published, run[i].history)
  {
    RunKeepsInv(run, i);
  }

  ghost predicate IsNewestPart(visited: seq<CStr>, vals: seq<CStr>) {
    |visited| <= |vals| && forall k :: 0 <= k < |visited| ==> visited[k] == vals[|vals| - 1 - k]
  }

  /**
    However the inserter's stores interleave, a walk sees the values published before its load of
    `node`, newest first: a part of them while it runs or if it breaks off, all of them if it ends.
    Those are what the insert calls made by then amount to, but for one in progress.
   */
  lemma WalkSeesSnapshot(run: seq<State>, i: nat, j: nat)
    requires IsRun(run) && i < j < |run|
    requires StartsWalk(run, i) && run[j].rd.walk == run[i + 1].rd.walk
    ensures IsNewestPart(run[j].rd.visited, PublishedValues(run[i]))
    ensures run[j].rd.phase.Resting? && run[j].rd.ended ==> |run[j].rd.visited| == |PublishedValues(run[i])|
    ensures PublishedValues(run[i]) == Replay([], CallsDone(run[i]))
  {
    var s, t := run[i], run[j];
    hide *;
    CallsTakeEffect(run, i);
    InvParts(run, i);
    InvParts(run, j);
    StartTakesSnapshot(run, i);
    RunExtends(run, i + 1, j);
    RunExtends(run, i, j);
    SnapshotKept(run[i + 1], t, s.published);
    VisitedIsNewest(s, t);
  }

  lemma SnapshotKept(s: State, t: State, ids: seq<Id>)
    requires Extends(s, t) && s.rd.walk == t.rd.walk && s.rd.snapshot == ids
    ensures t.rd.snapshot == ids
  {
  }

  /** What a walker with the snapshot of s has visited by t is the newest part of the values published in s. */
  lemma VisitedIsNewest(s: State, t: State)
    requires EffectOk(s.sh.heap, s.published, s.history) && ReaderOk(t.sh.heap, t.published, t.rd)
    requires Extends(s, t) && t.rd.snapshot == s.published
    ensures PublishedValues(s) == Replay([], s.history)
    ensures IsNewestPart(t.rd.visited, PublishedValues(s))
    ensures t.rd.phase.Resting? && t.rd.ended ==> |t.rd.visited| == |PublishedValues(s)|
  {
    hide Replay, FromEnd;
    var vals := ValuesOf(s.sh.heap, s.published);
    forall k | 0 <= k < |t.rd.visited| ensures t.rd.visited[k] == vals[|vals| - 1 - k] {
      assert VisitedOk(t.sh.heap, t.rd, k);
      assert s.published[|vals| - 1 - k] < |s.sh.heap|;
    }
  }

  // ---------- A walk ends ----------

  /** How many loads and tests a walk can still make. */
  function Rank(rd: Reader): int {
    match rd.phase
    case Resting => 0
    case AtTest(_) => 2 * (|rd.snapshot| - |rd.visited|) + 1
    case BeforePrevious(_) => 2 * (|rd.snapshot| - |rd.visited|) + 2
  }

  /** The walker's own steps among steps i, ..., j - 1 of the run. */
  function WalkerSteps(run: seq<State>, i: nat, j: nat): nat
    requires i <= j < |run|
  {
    if i == j then 0 else WalkerSteps(run, i, j - 1) + if run[j - 1].rd != run[j].rd then 1 else 0
  }

  lemma RankFalls(s: State, s': State)
    requires Next(s, s') && s.rd.walk == s'.rd.walk
    requires |s.rd.visited| <= |s.rd.snapshot|
    ensures s'.rd == s.rd || Rank(s'.rd) < Rank(s.rd)
  {
    InserterLeavesReader(s, s');
  }

  /** A walk makes at most two steps per item of its snapshot and one more, however many inserts continue. */
  lemma {:induction false} WalkTerminates(run: seq<State>, i: nat, j: nat)
    requires IsRun(run) && i < j < |run|
    requires StartsWalk(run, i) && run[j].rd.walk == run[i + 1].rd.walk
    ensures WalkerSteps(run, i + 1, j) + Rank(run[j].rd) <= 2 * |run[i].published| + 1
    ensures Rank(run[j].rd) >= 0
  {
    InvParts(run, j);
    if j == i + 1 {
      StartTakesSnapshot(run, i);
    } else {
      RunExtends(run, i + 1, j - 1);
      RunExtends(run, j - 1, j);
      WalkTerminates(run, i, j - 1);
      InvParts(run, j - 1);
      assert StepAt(run, j - 1);
      RankFalls(run[j - 1], run[j]);
    }
  }

  /**
    Neither thread ever faults or blocks: in every reached state each has a next step. The inserter's
    starts the next call or brings the present one nearer to its end. The walker's starts a walk or
    brings the present one nearer to its end, and a walk that is not told to stop rests only at the end.
   */
  lemma NeverBlocked(run: seq<State>, i: nat, arg: CStr, stop: bool)
    requires IsRun(run) && i < |run|
    ensures InserterSafe(run[i]) && InserterStep(run[i], InserterNext(run[i], arg))
    ensures run[i].ins.Idle? ==> InserterNext(run[i], arg).calls == run[i].calls + [arg]
    ensures !run[i].ins.Idle? ==> CallRank(InserterNext(run[i], arg).ins) < CallRank(run[i].ins)
    ensures ReaderSafe(run[i]) && ReaderStep(run[i], run[i].(rd := ReaderNext(run[i], stop)))
    ensures run[i].rd.phase.Resting? ==> ReaderNext(run[i], stop).walk == run[i].rd.walk + 1
    ensures !run[i].rd.phase.Resting? ==> Rank(ReaderNext(run[i], stop)) < Rank(run[i].rd)
    ensures !run[i].rd.phase.Resting? && !stop && ReaderNext(run[i], stop).phase.Resting? ==>
              ReaderNext(run[i], stop).ended
  {
    RunKeepsInv(run, i);
    InvImpliesSafe(run[i]);
    CallAdvances(run[i], arg);
    hide Inv, IsRun, Storable, Key;
  }
}
