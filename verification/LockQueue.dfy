/** The linked queue used by one caller at a time: nodes on the heap, and the FIFO sequence they hold. */
module LinkedQueue {
  import opened Sequences

  datatype Option<T> = None | Some(value: T)

  class Node<T> {
    var data: T
    var next: Node?<T>

    constructor (value: T)
      ensures data == value && next == null
    {
      data, next := value, null;
    }
  }

  class LockQueue<T> {
    var head: Node?<T>
    var tail: Node?<T>
    ghost var spine: seq<Node<T>>  // the nodes from head to tail

    /** The chain from `head` is exactly the spine, and `tail` is its last node. */
    ghost predicate Valid()
      reads this, spine
    {
      && (forall i, j :: 0 <= i < j < |spine| ==> spine[i] != spine[j])
      && (forall i :: 0 <= i < |spine| - 1 ==> spine[i].next == spine[i + 1])
      && (spine != [] ==> spine[|spine| - 1].next == null)
      && head == (if spine == [] then null else spine[0])
      && tail == (if spine == [] then null else spine[|spine| - 1])
    }

    ghost function Contents(): (s: seq<T>)
      reads this, spine
      ensures |s| == |spine|
    {
      seq(|spine|, i requires 0 <= i < |spine| reads this, spine => spine[i].data)
    }

    constructor ()
      ensures Valid() && spine == [] && Contents() == []
    {
      head, tail, spine := null, null, [];
    }

    method Enqueue(value: T)
      requires Valid()
      modifies this, spine
      ensures Valid() && Contents() == old(Contents()) + [value]
      ensures |spine| == old(|spine|) + 1 && spine[..|spine| - 1] == old(spine) && fresh(spine[|spine| - 1])
    {
      var newNode := new Node(value);
      newNode.next := null;
      var prevTail := tail;
      if prevTail == null {
        head := newNode;
        tail := newNode;
      } else {
        prevTail.next := newNode;
        tail := newNode;
      }
      spine := spine + [newNode];
    }

    /** The node taken leaves the spine: it is the one the program deletes. */
    method Dequeue() returns (result: Option<T>)
      requires Valid()
      modifies this
      ensures Valid()
      ensures if old(spine) == [] then result == None && spine == []
              else result == Some(old(Contents())[0]) && spine == old(spine)[1..]
      ensures Contents() == if old(spine) == [] then [] else old(Contents())[1..]
    {
      var oldHead := head;
      if oldHead == null {
        return None;
      }
      assert oldHead == spine[0] && old(Contents())[0] == oldHead.data;
      var newHead := oldHead.next;
      assert |spine| > 1 ==> spine[0].next == spine[0 + 1];
      if newHead == null {
        assert |spine| == 1;
        tail := null;
        if head == oldHead {
          head := newHead;
          spine := spine[1..];
          assert Contents() == old(Contents())[1..];
          return Some(oldHead.data);
        } else {
          return None;
        }
      }
      result := Some(oldHead.data);
      head := newHead;
      spine := spine[1..];
      assert forall i :: 0 <= i < |spine| ==> spine[i] == old(spine)[i + 1];
      assert Contents() == old(Contents())[1..];
    }
  }

  // ---------- any sequence of complete calls ----------

  datatype Call<T> = Enq(value: T) | Deq

  datatype Outcome<T> = Outcome(contents: seq<T>, delivered: seq<T>)

  /** What the contracts above make of a sequence of calls. */
  function Serve<T>(contents: seq<T>, calls: seq<Call<T>>): Outcome<T>
    decreases |calls|
  {
    if calls == [] then Outcome(contents, [])
    else if calls[0].Enq? then Serve(contents + [calls[0].value], calls[1..])
    else if contents == [] then Serve(contents, calls[1..])
    else
      var rest := Serve(contents[1..], calls[1..]);
      Outcome(rest.contents, [contents[0]] + rest.delivered)
  }

  function Enqueued<T>(calls: seq<Call<T>>): seq<T> {
    if calls == [] then []
    else if calls[0].Enq? then [calls[0].value] + Enqueued(calls[1..])
    else Enqueued(calls[1..])
  }

  /** The takes that find something, in a queue of `n` elements at first. */
  function Finds<T>(n: nat, calls: seq<Call<T>>): nat
    decreases |calls|
  {
    if calls == [] then 0
    else if calls[0].Enq? then Finds(n + 1, calls[1..])
    else if n == 0 then Finds(0, calls[1..])
    else 1 + Finds(n - 1, calls[1..])
  }

  /** First in, first out: what was delivered, followed by what is left, is what was there, followed by
      what was enqueued; and every take that finds something delivers one element. */
  lemma {:induction false} FirstInFirstOut<T>(contents: seq<T>, calls: seq<Call<T>>)
    ensures var r := Serve(contents, calls);
            r.delivered + r.contents == contents + Enqueued(calls) && |r.delivered| == Finds(|contents|, calls)
    decreases |calls|
  {
    if calls == [] {
    } else if calls[0].Enq? {
      FirstInFirstOut(contents + [calls[0].value], calls[1..]);
      Regroup(contents, [calls[0].value], Enqueued(calls[1..]));
    } else if contents == [] {
      FirstInFirstOut(contents, calls[1..]);
    } else {
      FirstInFirstOut(contents[1..], calls[1..]);
      var rest := Serve(contents[1..], calls[1..]);
      Regroup([contents[0]], rest.delivered, rest.contents);
      Regroup([contents[0]], contents[1..], Enqueued(calls));
      assert [contents[0]] + contents[1..] == contents;
    }
  }

  /** A run of complete calls on the object delivers and leaves exactly what `Serve` says. */
  method ServeAll<T>(q: LockQueue<T>, calls: seq<Call<T>>) returns (delivered: seq<T>)
    requires q.Valid()
    modifies q, q.spine
    ensures q.Valid() && Outcome(q.Contents(), delivered) == Serve(old(q.Contents()), calls)
    ensures delivered + q.Contents() == old(q.Contents()) + Enqueued(calls)
    ensures |delivered| == Finds(old(|q.Contents()|), calls)
    ensures forall n :: n in q.spine ==> n in old(q.spine) || fresh(n)
    decreases |calls|
  {
    FirstInFirstOut(q.Contents(), calls);
    if calls == [] {
      return [];
    }
    match calls[0]
    case Enq(value) =>
      q.Enqueue(value);
      delivered := ServeAll(q, calls[1..]);
    case Deq =>
      var result := q.Dequeue();
      delivered := ServeAll(q, calls[1..]);
      if result.Some? {
        delivered := [result.value] + delivered;
      }
  }
}
