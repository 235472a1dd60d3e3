/** The two threads of thread_mutex_cond.c on the linked list they share. Each method is what its
    function does at one atomic step, and goes exactly where the model of the steps goes. */
module JobThreads {
  import opened JobMonitor
  import opened JobRuns

  class JobNode {
    var str1: string
    var next: JobNode?
  }

  /** The nodes hang on head in this order, and the last one ends the list. */
  ghost predicate Chain(head: JobNode?, nodes: seq<JobNode>)
    reads nodes`next
  {
    && head == Successor(nodes, 0)
    && forall i :: 0 <= i < |nodes| ==> nodes[i].next == Successor(nodes, i + 1)
  }

  ghost function Successor(nodes: seq<JobNode>, i: nat): JobNode?
    requires i <= |nodes|
  {
    if i < |nodes| then nodes[i] else null
  }

  /** A list of nodes as the jobs it stands for. */
  ghost function Jobs(nodes: seq<JobNode>): (jobs: seq<Job<JobNode>>)
    reads nodes`str1
    ensures |jobs| == |nodes|
  {
    if nodes == [] then [] else [Job(nodes[0], nodes[0].str1)] + Jobs(nodes[1..])
  }

  lemma {:induction false} JobsAt(nodes: seq<JobNode>, i: nat)
    requires i < |nodes|
    ensures Jobs(nodes)[i] == Job(nodes[i], nodes[i].str1)
  {
    if i > 0 {
      JobsAt(nodes[1..], i - 1);
    }
  }

  lemma {:induction false} JobsOneMore(nodes: seq<JobNode>, node: JobNode)
    ensures Jobs(nodes + [node]) == Jobs(nodes) + [Job(node, node.str1)]
  {
    if nodes != [] {
      JobsOneMore(nodes[1..], node);
      assert (nodes + [node])[1..] == nodes[1..] + [node];
    } else {
      assert (nodes + [node])[1..] == [];
    }
  }

  /** A list that ends has no node twice: the last one has no successor, so it is not another. */
  lemma {:induction false} LastIsNoOther(head: JobNode?, nodes: seq<JobNode>, i: nat)
    requires Chain(head, nodes) && i < |nodes| - 1
    ensures nodes[i] != nodes[|nodes| - 1]
  {
    assert nodes[i].next == nodes[i + 1];
  }

  class Monitor {
    const batch: nat
    // job_head1, and the nodes that hang on it
    var queueCount: Word
    var next: JobNode?
    ghost var nodes: seq<JobNode>
    // m1, and where the threads are
    var mutex: Owner
    var cons: ConsPc<JobNode>
    var prod: ProdPc<JobNode>
    ghost var live: set<JobNode>
    ghost var past: History<JobNode>

    ghost predicate Valid()
      reads this`next, this`nodes, nodes`next
    {
      Chain(next, nodes)
    }

    /** The producer has read the string of its job into the node. */
    ghost predicate HasRead()
      reads this`prod, (if prod.Linking? then {prod.job.addr} else {})`str1
    {
      prod.Linking? ==> prod.job.addr.str1 == prod.job.text
    }

    ghost function View(): State<JobNode>
      reads this, nodes`str1
    {
      State(queueCount, Jobs(nodes), mutex, cons, prod, live, past)
    }

    constructor (batch: nat)
      requires 0 < batch < WORD
      ensures Valid() && HasRead() && Init(View()) && this.batch == batch
    {
      this.batch := batch;
      queueCount, next, nodes, mutex, cons, prod := 0, null, [], Nobody, ConsLock, ProdLock;
      live, past := {}, History([], [], [], []);
    }

    // ------------------------------------------------------- the linked list

    /** Walks to the tail and links the new node there. */
    method Append(node: JobNode)
      requires Valid() && node !in nodes
      modifies this`next, this`queueCount, this`nodes, nodes`next, node`next
      ensures Valid() && nodes == old(nodes) + [node]
      ensures queueCount == Incremented(old(queueCount))
    {
      if next == null {
        next := node;
        node.next := null;
      } else {
        var temp := next;
        ghost var i := 0;
        while temp.next != null
          invariant i < |nodes| && temp == nodes[i]
          decreases |nodes| - i
        {
          temp, i := temp.next, i + 1;
        }
        Link(temp, node);
      }
      nodes := nodes + [node];
      queueCount := (queueCount + 1) % WORD;
    }

    method Link(last: JobNode, node: JobNode)
      requires Valid() && node !in nodes && nodes != [] && last == nodes[|nodes| - 1]
      modifies last`next, node`next
      ensures Chain(next, nodes + [node])
    {
      forall i | 0 <= i < |nodes| - 1 ensures nodes[i] != last {
        LastIsNoOther(next, nodes, i);
      }
      last.next := node;
      node.next := null;
    }

    /** Takes the first node out of the list. */
    method Unlink() returns (node: JobNode)
      requires Valid() && next != null
      modifies this`next, this`queueCount, this`nodes
      ensures Valid() && old(nodes) != [] && node == old(nodes)[0] && nodes == old(nodes)[1..]
      ensures queueCount == Decremented(old(queueCount))
    {
      node := next;
      next := next.next;
      nodes := nodes[1..];
      queueCount := if queueCount == 0 then WORD - 1 else queueCount - 1;
    }

    method TakeJob()
      requires Valid() && next != null
      modifies this`next, this`queueCount, this`nodes, this`mutex, this`cons, this`past
      ensures Valid() && mutex == Consumer && queueCount == Decremented(old(queueCount))
      ensures var jobs := old(Jobs(nodes));
              && jobs != [] && cons == Freeing(jobs[0]) && Jobs(nodes) == jobs[1..]
              && past == old(past).(consumed := old(past).consumed + [jobs[0]])
    {
      var nextJob := Unlink();
      mutex, cons := Consumer, Freeing(Job(nextJob, nextJob.str1));
      past := past.(consumed := past.consumed + [Job(nextJob, nextJob.str1)]);
    }

    method Read(node: JobNode, text: string)
      requires Valid() && node !in live && (forall n <- nodes :: n in live)
      modifies node`str1, this`prod, this`mutex, this`live, this`past
      ensures Valid() && HasRead() && node.str1 == text && Jobs(nodes) == old(Jobs(nodes))
      ensures mutex == Producer && prod == Linking(Job(node, text)) && live == old(live) + {node}
      ensures past == old(past).(mallocs := old(past).mallocs + [Job(node, text)])
    {
      node.str1 := text;
      mutex, prod, live := Producer, Linking(Job(node, text)), live + {node};
      past := past.(mallocs := past.mallocs + [Job(node, text)]);
    }

    method LinkJob()
      requires Valid() && HasRead() && prod.Linking? && prod.job.addr !in nodes
      modifies this`next, this`queueCount, this`nodes, nodes`next, prod.job.addr`next
      modifies this`mutex, this`prod, this`past
      ensures Valid() && mutex == Producer && prod == ProdSignal && Jobs(nodes) == old(Jobs(nodes) + [prod.job])
      ensures queueCount == Incremented(old(queueCount))
      ensures past == old(past).(produced := old(past).produced + [old(prod.job)])
    {
      JobsOneMore(nodes, prod.job.addr);
      past := past.(produced := past.produced + [prod.job]);
      Append(prod.job.addr);
      mutex, prod := Producer, ProdSignal;
    }

    // --------------------------------------------------------------- threads

    /** One step of the consumer. */
    method ThreadFunc1()
      requires Valid() && HasRead() && Enabled(View(), Consume)
      modifies this
      ensures Valid() && HasRead() && View() == Next(old(View()), Consume, batch)
    {
      if cons.Draining? || cons.Freeing? {
        Drain();
      } else if cons.ConsSignal? {
        Signal();
      } else {
        AwaitBatch();
      }
    }

    /** The inner loop of the consumer. */
    method Drain()
      requires Valid() && (cons.Draining? || cons.Freeing?)
      modifies this`next, this`queueCount, this`nodes, this`mutex, this`cons, this`live, this`past
      ensures Valid() && View() == ConsumeNext(old(View()), batch)
    {
      if cons.Freeing? {
        past := past.(frees := past.frees + [cons.job]);
        mutex, cons, live := Consumer, Draining, live - {cons.job.addr};
      } else if next == null {
        mutex, cons := Consumer, ConsSignal;
      } else {
        TakeJob();
      }
    }

    method Signal()
      requires cons.ConsSignal?
      modifies this`mutex, this`cons, this`prod
      ensures View() == ConsumeNext(old(View()), batch)
      ensures prod == old(prod) || (prod.ProdWoken? && !old(prod).Linking?)
    {
      mutex, cons := Consumer, ConsUnlock;
      if prod.ProdAsleep? {
        prod := ProdWoken;
      }
    }

    method AwaitBatch()
      requires cons.ConsLock? || cons.ConsTest? || cons.ConsWoken? || cons.ConsUnlock?
      modifies this`mutex, this`cons
      ensures View() == ConsumeNext(old(View()), batch)
    {
      if cons.ConsUnlock? {
        mutex, cons := Nobody, ConsLock;
      } else if cons.ConsTest? {
        if queueCount < batch {
          mutex, cons := Nobody, ConsAsleep;
        } else {
          mutex, cons := Consumer, Draining;
        }
      } else {
        mutex, cons := Consumer, ConsTest;
      }
    }

    /** One step of the producer. When that is its step, malloc gives it the node, which may be any
        that is not in use, and it reads the text. */
    method ThreadFunc2(node: JobNode, text: string)
      requires Valid() && HasRead() && Inv(View(), batch) && Enabled(View(), Produce(Job(node, text)))
      modifies this, nodes`next, node, (if prod.Linking? then {prod.job.addr} else {})`next
      ensures Valid() && HasRead() && View() == Next(old(View()), Produce(Job(node, text)), batch)
    {
      if prod.Reading? {
        NotInList(View(), nodes);
        Read(node, text);
      } else if prod.Linking? {
        NotInList(View(), nodes);
        LinkJob();
      } else {
        AwaitRoom(Job(node, text));
      }
    }

    method AwaitRoom(ghost job: Job<JobNode>)
      requires !prod.ProdAsleep? && !prod.Reading? && !prod.Linking?
      modifies this`mutex, this`prod, this`cons
      ensures View() == ProduceNext(old(View()), job, batch) && !prod.Linking?
    {
      if prod.ProdSignal? {
        mutex, prod := Producer, ProdUnlock;
        if queueCount >= batch && cons.ConsAsleep? {
          cons := ConsWoken;
        }
      } else if prod.ProdUnlock? {
        mutex, prod := Nobody, ProdLock;
      } else if prod.ProdTest? {
        if queueCount >= batch {
          mutex, prod := Nobody, ProdAsleep;
        } else {
          mutex, prod := Producer, Reading;
        }
      } else {
        mutex, prod := Producer, ProdTest;
      }
    }
  }

  /** Neither a node not in use nor the one about to be linked is in the list. */
  lemma {:induction false} NotInList(s: State<JobNode>, nodes: seq<JobNode>)
    requires Heap(InUse(s.list, s.cons, s.prod), s.live) && s.list == Jobs(nodes)
    ensures forall node <- nodes :: node in s.live
    ensures s.prod.Linking? ==> s.prod.job.addr !in nodes
  {
    var jobs := InUse(s.list, s.cons, s.prod);
    var k := |Unlinked(s.cons)|;
    forall i | 0 <= i < |nodes|
      ensures nodes[i] in s.live && (s.prod.Linking? ==> s.prod.job.addr != nodes[i])
    {
      JobsAt(nodes, i);
      assert jobs[k + i] == s.list[i];
      assert s.prod.Linking? ==> jobs[|jobs| - 1] == s.prod.job;
    }
  }
}
