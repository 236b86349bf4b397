/** The waiting queue: an intrusive singly linked FIFO threaded through the
    processes' own `next` fields, with `front` and `rear` pointers. */
module WaitingQueue {
  import opened Processes

  ghost predicate Distinct(c: seq<Process>)
  {
    forall i, j :: 0 <= i < j < |c| ==> c[i] != c[j]
  }

  /** Position of a process that is in the list. */
  function IndexOf(c: seq<Process>, p: Process): (k: nat)
    requires p in c
    ensures k < |c| && c[k] == p && p !in c[..k]
  {
    if c[0] == p then 0 else IndexOf(c[1..], p) + 1
  }

  /** The contents of the queue after enqueueing `p`. A process that is not
      in the queue is appended. A process that is already linked in is made
      the rear again and its `next` is cleared, so the nodes that were behind
      it are no longer reachable from `front`: the queue becomes the prefix
      that ends at `p`. */
  function Enqueued(c: seq<Process>, p: Process): (r: seq<Process>)
    ensures |r| > 0 && r[|r| - 1] == p
    ensures p !in c ==> r == c + [p]
    ensures p in c ==> |r| <= |c| && r == c[..|r|]
    ensures forall x :: x in r ==> x in c || x == p
  {
    if p in c then c[..IndexOf(c, p) + 1] else c + [p]
  }

  /** Enqueueing keeps the queue free of duplicates, which the intrusive
      list needs: a node has only one `next`. */
  lemma EnqueuedDistinct(c: seq<Process>, p: Process)
    requires Distinct(c)
    ensures Distinct(Enqueued(c, p))
  {
    if p in c {
      var r := Enqueued(c, p);
      assert forall i :: 0 <= i < |r| ==> r[i] == c[i];
    }
  }

  /** Re-enqueueing a node that is already queued never lengthens the queue,
      and it loses every node behind it unless it already was the rear. */
  lemma ReenqueueTruncates(c: seq<Process>, p: Process)
    requires Distinct(c) && p in c
    ensures Enqueued(c, p) == c <==> c[|c| - 1] == p
    ensures c[|c| - 1] != p ==> |Enqueued(c, p)| < |c|
  {
    var k := IndexOf(c, p);
    assert Enqueued(c, p) == c[..k + 1];
    if c[|c| - 1] == p {
      assert k == |c| - 1;
    }
  }

  /** Enqueueing a list of processes one after the other. */
  function EnqueueAll(c: seq<Process>, ps: seq<Process>): (r: seq<Process>)
    ensures forall x :: x in r ==> x in c || x in ps
    decreases |ps|
  {
    if ps == [] then c else EnqueueAll(Enqueued(c, ps[0]), ps[1..])
  }

  class Queue {
    var front: Process?
    var rear: Process?
    /** The processes reachable from `front`, in queue order. */
    ghost var Contents: seq<Process>

    ghost predicate Valid()
      reads this, Contents
    {
      (Contents == [] ==> front == null && rear == null) &&
      (Contents != [] ==> front == Contents[0] && rear == Contents[|Contents| - 1] &&
                          Contents[|Contents| - 1].next == null) &&
      (forall i :: 0 <= i < |Contents| - 1 ==> Contents[i].next == Contents[i + 1]) &&
      Distinct(Contents)
    }

    /** A new, empty queue. */
    constructor ()
      ensures Valid() && Contents == []
    {
      front := null;
      rear := null;
      Contents := [];
    }

    function IsEmpty(): (r: bool)
      reads this, Contents
      requires Valid()
      ensures r <==> Contents == []
    {
      front == null
    }

    /** Links `p` in at the rear and logs that it is queued. */
    method Enqueue(p: Process, log: seq<Event>) returns (log': seq<Event>)
      requires Valid()
      modifies this, p, Contents
      ensures Valid()
      ensures Contents == Enqueued(old(Contents), p)
      ensures log' == log + [Queued(p.name)]
    {
      ghost var c := Contents;
      ghost var r := Enqueued(c, p);
      ghost var oldRear := rear;
      if IsEmpty() {
        front := p;
        rear := p;
        p.next := null;
      } else {
        rear.next := p;
        rear := p;
        p.next := null;
      }
      EnqueuedDistinct(c, p);
      forall i | 0 <= i < |r| - 1
        ensures r[i].next == r[i + 1]
      {
        assert r[i] == c[i] && r[i] != p;
        if i < |c| - 1 {
          assert r[i] != oldRear;
          assert r[i + 1] == c[i + 1];
        } else {
          assert r[i] == oldRear;
        }
      }
      Contents := r;
      log' := log + [Queued(p.name)];
    }

    /** Unlinks and returns the front process, or null when the queue is empty. */
    method Dequeue() returns (p: Process?)
      requires Valid()
      modifies this
      ensures Valid()
      ensures old(Contents) == [] ==> p == null && Contents == []
      ensures old(Contents) != [] ==> p == old(Contents)[0] && Contents == old(Contents)[1..]
    {
      if !IsEmpty() {
        p := front;
        front := front.next;
        if front == null {
          rear := null;
        }
        Contents := Contents[1..];
      } else {
        p := null;
      }
    }
  }
}
