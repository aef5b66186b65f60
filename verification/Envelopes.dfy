// Commands tagged with the order of the system that staged them, and the
// stable sort that puts a queue of them in commit order.
module Envelopes {

  datatype Envelope<+C> = Envelope(systemOrder: nat, sequence: nat, command: C)

  predicate Before<C>(a: Envelope<C>, b: Envelope<C>) {
    a.systemOrder < b.systemOrder || (a.systemOrder == b.systemOrder && a.sequence <= b.sequence)
  }

  ghost predicate InOrder<C>(queue: seq<Envelope<C>>) {
    forall i, j :: 0 <= i < j < |queue| ==> Before(queue[i], queue[j])
  }

  /** Insert in front of the first element that does not come before it: equal tags keep their order. */
  function InsertEnvelope<C>(e: Envelope<C>, queue: seq<Envelope<C>>): seq<Envelope<C>> {
    if queue == [] || Before(e, queue[0]) then [e] + queue
    else [queue[0]] + InsertEnvelope(e, queue[1..])
  }

  function SortEnvelopes<C>(queue: seq<Envelope<C>>): seq<Envelope<C>> {
    if queue == [] then [] else InsertEnvelope(queue[0], SortEnvelopes(queue[1..]))
  }

  /** Sorting a queue that is already in order changes nothing. */
  lemma {:induction false} SortedStays<C>(queue: seq<Envelope<C>>)
    requires InOrder(queue)
    ensures SortEnvelopes(queue) == queue
  {
    if queue != [] {
      SortedStays(queue[1..]);
      if |queue| > 1 {
        assert Before(queue[0], queue[1]);
      }
    }
  }

  lemma {:induction false} InsertKeepsBag<C>(e: Envelope<C>, queue: seq<Envelope<C>>)
    ensures multiset(InsertEnvelope(e, queue)) == multiset(queue) + multiset{e}
  {
    if queue != [] && !Before(e, queue[0]) {
      InsertKeepsBag(e, queue[1..]);
      assert queue == [queue[0]] + queue[1..];
    }
  }

  lemma {:induction false} InsertInOrder<C>(e: Envelope<C>, queue: seq<Envelope<C>>)
    requires InOrder(queue)
    ensures InOrder(InsertEnvelope(e, queue))
  {
    if queue != [] && !Before(e, queue[0]) {
      var rest := InsertEnvelope(e, queue[1..]);
      InsertInOrder(e, queue[1..]);
      InsertKeepsBag(e, queue[1..]);
      forall i | 0 <= i < |rest| ensures Before(queue[0], rest[i]) {
        assert rest[i] in multiset(rest);
        if rest[i] != e {
          assert rest[i] in queue[1..];
        }
      }
    }
  }

  /** The sort keeps every envelope and puts them in order. */
  lemma {:induction false} SortSorts<C>(queue: seq<Envelope<C>>)
    ensures InOrder(SortEnvelopes(queue)) && multiset(SortEnvelopes(queue)) == multiset(queue)
  {
    if queue != [] {
      SortSorts(queue[1..]);
      InsertInOrder(queue[0], SortEnvelopes(queue[1..]));
      InsertKeepsBag(queue[0], SortEnvelopes(queue[1..]));
      assert queue == [queue[0]] + queue[1..];
    }
  }

  /** Ascending by system; within a system ascending by sequence. */
  ghost predicate ByTags<C>(queue: seq<Envelope<C>>) {
    forall i, j :: 0 <= i < j < |queue| ==>
      && queue[i].systemOrder <= queue[j].systemOrder
      && (queue[i].systemOrder == queue[j].systemOrder ==> queue[i].sequence <= queue[j].sequence)
  }

  lemma InOrderExactly<C>(queue: seq<Envelope<C>>)
    ensures InOrder(queue) <==> ByTags(queue)
  {
    if ByTags(queue) {
      forall i, j | 0 <= i < j < |queue| ensures Before(queue[i], queue[j]) {
      }
    } else {
      var i, j :| 0 <= i < j < |queue| && !(queue[i].systemOrder <= queue[j].systemOrder
        && (queue[i].systemOrder == queue[j].systemOrder ==> queue[i].sequence <= queue[j].sequence));
      assert !Before(queue[i], queue[j]);
    }
  }

  /** The sort keeps every envelope, puts them in ascending order by system and sequence, and keeps such a queue. */
  lemma SortsByTags<C>(queue: seq<Envelope<C>>)
    ensures ByTags(SortEnvelopes(queue)) && multiset(SortEnvelopes(queue)) == multiset(queue)
    ensures ByTags(queue) ==> SortEnvelopes(queue) == queue
  {
    SortSorts(queue);
    InOrderExactly(queue);
    InOrderExactly(SortEnvelopes(queue));
    if ByTags(queue) {
      SortedStays(queue);
    }
  }

  /** The envelopes one system's commands are wrapped in. */
  function Wrap<C>(systemOrder: nat, commands: seq<C>): (envelopes: seq<Envelope<C>>)
    ensures |envelopes| == |commands|
    ensures forall k :: 0 <= k < |commands| ==> envelopes[k] == Envelope(systemOrder, k, commands[k])
  {
    seq(|commands|, k requires 0 <= k < |commands| => Envelope(systemOrder, k, commands[k]))
  }

  class CommandBuffer<C> {
    const systemOrder: nat
    var next: nat
    var commands: seq<Envelope<C>>
    ghost var staged: seq<C>

    ghost predicate Valid()
      reads this
    {
      next == |staged| && commands == Wrap(systemOrder, staged)
    }

    constructor (systemOrder: nat)
      ensures Valid() && staged == [] && this.systemOrder == systemOrder
    {
      this.systemOrder, next, commands, staged := systemOrder, 0, [], [];
    }

    method Stage(command: C)
      requires Valid()
      modifies this
      ensures Valid() && staged == old(staged) + [command]
    {
      commands := commands + [Envelope(systemOrder, next, command)];
      next := next + 1;
      staged := staged + [command];
    }
  }
}
