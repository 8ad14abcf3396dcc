/** The event queue: a singly linked list with head and tail pointers. */
module EventQueue {
  class Entry<T> {
    const event: T
    var next: Entry?<T>

    constructor (event: T)
      ensures this.event == event && next == null
    {
      this.event := event;
      next := null;
    }
  }

  class Queue<T> {
    var head: Entry?<T>
    var tail: Entry?<T>
    ghost var nodes: seq<Entry<T>>   // the reachable entries, head first
    ghost var repr: set<object>      // the queue and every entry it was ever given

    ghost predicate Valid()
      reads this, repr
      ensures Valid() ==> this in repr
    {
      && this in repr && (forall i :: 0 <= i < |nodes| ==> nodes[i] in repr)
      && head == (if nodes == [] then null else nodes[0])
      && tail == (if nodes == [] then null else nodes[|nodes| - 1])
      && (forall i :: 0 <= i < |nodes| ==> LinkedAt(i))
      && (forall i, j :: 0 <= i < j < |nodes| ==> nodes[i] != nodes[j])
    }

    ghost predicate LinkedAt(i: nat)
      requires i < |nodes|
      reads this, nodes
    {
      nodes[i].next == (if i + 1 < |nodes| then nodes[i + 1] else null)
    }

    ghost function Contents(): (c: seq<T>)
      reads this
      ensures |c| == |nodes|
      ensures forall i :: 0 <= i < |c| ==> c[i] == nodes[i].event
    {
      seq(|nodes|, i requires 0 <= i < |nodes| reads this => nodes[i].event)
    }

    constructor ()
      ensures Valid() && nodes == [] && fresh(repr)
    {
      head, tail, nodes := null, null, [];
      repr := {this};
    }

    method Empty() returns (empty: bool)
      requires Valid()
      ensures empty <==> nodes == []
      ensures empty <==> tail == null
    {
      empty := head == null;
    }

    /** Appends an entry that is not in the queue; what it was linked to before does not matter. */
    method Enqueue(d: Entry<T>)
      requires Valid() && d !in nodes
      modifies repr, d
      ensures Valid() && nodes == old(nodes) + [d] && repr == old(repr) + {d}
      ensures d.next == null
      ensures Contents() == old(Contents()) + [d.event]
    {
      d.next := null;
      ghost var n := |nodes|;
      if tail != null {
        tail.next := d;
        tail := d;
      } else {
        head := d;
        tail := d;
      }
      nodes := nodes + [d];
      repr := repr + {d};
      forall i | 0 <= i < |nodes| ensures LinkedAt(i) {
        if i < n {
          assert old(LinkedAt(i)) && nodes[i] == old(nodes)[i];
          assert i < n - 1 ==> old(nodes)[i] != old(nodes)[n - 1];
        }
      }
    }

    /** Detaches and returns the oldest entry; it may be enqueued again. */
    method Dequeue() returns (first: Entry?<T>)
      requires Valid()
      modifies repr
      ensures Valid() && repr == old(repr)
      ensures first == null <==> old(nodes) == []
      ensures first == null ==> nodes == []
      ensures first != null ==>
                && first == old(nodes)[0] && nodes == old(nodes)[1..]
                && first.next == null && first !in nodes && first in repr && first.event == old(Contents())[0]
      ensures Contents() == if old(nodes) == [] then [] else old(Contents())[1..]
    {
      first := head;
      if first != null {
        assert LinkedAt(0);
        head := first.next;
        if head == null {
          tail := null;
        }
        first.next := null;
        nodes := nodes[1..];
        forall i | 0 <= i < |nodes| ensures LinkedAt(i) {
          assert old(LinkedAt(i + 1)) && nodes[i] == old(nodes)[i + 1];
        }
      }
    }

    /** Frees every remaining entry, oldest first, exactly once. */
    method Destroy() returns (freed: seq<Entry<T>>)
      requires Valid()
      modifies repr
      ensures freed == old(nodes)
      ensures head == null && tail == null && nodes == []
    {
      freed := [];
      while head != null
        invariant nodes == old(nodes) && repr == old(repr) && freed <= nodes
        invariant head == if |freed| == |nodes| then null else nodes[|freed|]
        invariant forall i :: |freed| <= i < |nodes| ==> LinkedAt(i)
        decreases |nodes| - |freed|
      {
        var next := head;
        assert LinkedAt(|freed|);
        label BeforeDetach:
        head := next.next;
        next.next := null;
        freed := freed + [next];
        forall i | |freed| <= i < |nodes| ensures LinkedAt(i) {
          assert old@BeforeDetach(LinkedAt(i)) && nodes[i] != nodes[|freed| - 1];
        }
      }
      tail := null;
      nodes := [];
    }
  }

  // ---------- Any mix of operations ----------

  /** Requeue takes the oldest entry out and puts the same entry back. */
  datatype Op<T> = Put(event: T) | Get | Requeue

  /** One operation on what has come out so far and what is left. */
  function Apply<T>(s: (seq<T>, seq<T>), op: Op<T>): (seq<T>, seq<T>) {
    match op
    case Put(e) => (s.0, s.1 + [e])
    case Get => if s.1 == [] then s else (s.0 + [s.1[0]], s.1[1..])
    case Requeue => if s.1 == [] then s else (s.0, s.1[1..] + [s.1[0]])
  }

  function ApplyAll<T>(ops: seq<Op<T>>): (seq<T>, seq<T>) {
    if ops == [] then ([], []) else Apply(ApplyAll(ops[..|ops| - 1]), ops[|ops| - 1])
  }

  function Inputs<T>(ops: seq<Op<T>>): seq<T> {
    if ops == [] then []
    else Inputs(ops[..|ops| - 1]) + if ops[|ops| - 1].Put? then [ops[|ops| - 1].event] else []
  }

  /** First in, first out: what came out, followed by what is left, is what went in. */
  lemma {:induction false} FirstInFirstOut<T>(ops: seq<Op<T>>)
    requires forall i :: 0 <= i < |ops| ==> !ops[i].Requeue?
    ensures ApplyAll(ops).0 + ApplyAll(ops).1 == Inputs(ops)
  {
    if ops != [] {
      FirstInFirstOut(ops[..|ops| - 1]);
      var (out, rest) := ApplyAll(ops[..|ops| - 1]);
      match ops[|ops| - 1]
      case Put(e) => assert out + (rest + [e]) == (out + rest) + [e];
      case Get => assert rest != [] ==> (out + [rest[0]]) + rest[1..] == out + rest;
    }
  }

  /** The linked structure does under any mix of operations what the sequence does. */
  method Drive<T>(ops: seq<Op<T>>) returns (q: Queue<T>, out: seq<T>)
    ensures q.Valid() && fresh(q.repr)
    ensures (out, q.Contents()) == ApplyAll(ops)
  {
    q := new Queue();
    out := [];
    for n := 0 to |ops|
      invariant q.Valid() && fresh(q.repr)
      invariant (out, q.Contents()) == ApplyAll(ops[..n])
    {
      assert ops[..n + 1][..n] == ops[..n];
      match ops[n]
      case Put(e) =>
        var d := new Entry(e);
        q.Enqueue(d);
      case Get =>
        var d := q.Dequeue();
        if d != null {
          out := out + [d.event];
        }
      case Requeue =>
        var d := q.Dequeue();
        if d != null {
          q.Enqueue(d);
        }
    }
    assert ops[..|ops|] == ops;
  }
}
