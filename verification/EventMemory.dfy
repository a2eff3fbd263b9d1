/** The in-memory list of recent events that the analysis engine correlates against.

    The list is a doubly linked chain of heap nodes behind an empty sentinel. The specification of the
    trimming is a pair of functions over the event times, `Trim` (one eviction) and `Kept` (a whole run). */
module EventMemory {

  const EVICT_AT_LEAST := 10

  function Max(a: int, b: int): int { if a < b then b else a }

  // ---------------------------------------------------------------- specification over event times

  /** How many of the `k` newest events of `h` (oldest first) survive the eviction loop, `i` being the number
      of events it has already dropped. */
  function Trim(h: seq<int>, k: nat, i: nat, maxFreq: int): (r: nat)
    requires 1 <= k <= |h|
    ensures 1 <= r <= k
    decreases k
  {
    if k > 1 && (i < EVICT_AT_LEAST || h[|h| - 1] - h[|h| - k] > maxFreq)
    then Trim(h, k - 1, i + 1, maxFreq)
    else k
  }

  /** The number of events in memory after one insertion, when `k` events counting the new one are linked. */
  function Trimmed(h: seq<int>, k: nat, maxSize: int, maxFreq: int): (r: nat)
    requires 1 <= k <= |h|
    ensures 1 <= r <= k
  {
    if k > maxSize then Trim(h, k, 0, maxFreq) else k
  }

  /** The number of events in memory after inserting events with the times `h` into an empty list. */
  function Kept(h: seq<int>, maxSize: int, maxFreq: int): (k: nat)
    ensures k <= |h|
    ensures h != [] ==> k >= 1
    ensures k <= Max(1, maxSize)
  {
    if h == [] then 0
    else
      var k := Kept(h[..|h| - 1], maxSize, maxFreq) + 1;
      TrimDropsEnough(h, k, 0, maxFreq);
      Trimmed(h, k, maxSize, maxFreq)
  }

  predicate Nondecreasing(h: seq<int>) {
    forall i, j :: 0 <= i <= j < |h| ==> h[i] <= h[j]
  }

  /** An eviction drops ten events, or all events but the newest. */
  lemma {:induction false} TrimDropsEnough(h: seq<int>, k: nat, i: nat, maxFreq: int)
    requires 1 <= k <= |h|
    ensures Trim(h, k, i, maxFreq) <= Max(1, k - Max(0, 10 - i))
    decreases k
  {
    if k > 1 && (i < EVICT_AT_LEAST || h[|h| - 1] - h[|h| - k] > maxFreq) {
      TrimDropsEnough(h, k - 1, i + 1, maxFreq);
    }
  }

  /** Beyond the first ten, an eviction drops only events that are too old to match. */
  lemma {:induction false} TrimKeepsYoung(h: seq<int>, k: nat, i: nat, maxFreq: int, j: nat)
    requires 1 <= k <= |h| && Nondecreasing(h)
    requires |h| - Max(1, k - Max(0, 10 - i)) <= j < |h|
    requires h[|h| - 1] - h[j] <= maxFreq
    ensures |h| - Trim(h, k, i, maxFreq) <= j
    decreases k
  {
    if k > 1 && (i < EVICT_AT_LEAST || h[|h| - 1] - h[|h| - k] > maxFreq) {
      TrimKeepsYoung(h, k - 1, i + 1, maxFreq, j);
    }
  }

  /** An eviction leaves only the newest event, or an oldest one that is young enough to match. */
  lemma {:induction false} TrimDropsOld(h: seq<int>, k: nat, i: nat, maxFreq: int)
    requires 1 <= k <= |h|
    ensures var r := Trim(h, k, i, maxFreq); r == 1 || h[|h| - 1] - h[|h| - r] <= maxFreq
    decreases k
  {
    if k > 1 && (i < EVICT_AT_LEAST || h[|h| - 1] - h[|h| - k] > maxFreq) {
      TrimDropsOld(h, k - 1, i + 1, maxFreq);
    }
  }

  /** Which of the `k` linked events one eviction keeps, for times that never go back: the newest, and beyond the ten
      oldest exactly those that are not older than `maxFreq` relative to the newest. */
  lemma {:induction false} EvictionKeeps(h: seq<int>, k: nat, maxFreq: int, j: nat)
    requires 1 <= k <= |h| && Nondecreasing(h) && |h| - k <= j < |h|
    ensures |h| - Trim(h, k, 0, maxFreq) <= j <==>
      j == |h| - 1 || (j - (|h| - k) >= 10 && h[|h| - 1] - h[j] <= maxFreq)
  {
    TrimDropsEnough(h, k, 0, maxFreq);
    TrimDropsOld(h, k, 0, maxFreq);
    if j - (|h| - k) >= 10 && h[|h| - 1] - h[j] <= maxFreq {
      TrimKeepsYoung(h, k, 0, maxFreq, j);
    }
  }

  /** Retention over every run: with event times that never go back and a fixed frequency, each event that is
      among the newest `maxSize - 9` ever added and not older than `maxFreq` relative to the newest is still
      in the list. */
  lemma {:induction false} Retention(h: seq<int>, maxSize: int, maxFreq: int, j: nat)
    requires Nondecreasing(h)
    requires j < |h|
    requires |h| - j <= maxSize - 9
    requires h[|h| - 1] - h[j] <= maxFreq
    ensures |h| - Kept(h, maxSize, maxFreq) <= j
  {
    var g := h[..|h| - 1];
    var k := Kept(g, maxSize, maxFreq) + 1;
    if j < |h| - 1 {
      Retention(g, maxSize, maxFreq, j);
    }
    assert |h| - k <= j;
    if k > maxSize {
      TrimKeepsYoung(h, k, 0, maxFreq, j);
    }
  }

  // ---------------------------------------------------------------- heap objects

  class EventInfo {
    const time: int
    var node: EventNode?

    constructor (time: int)
      ensures this.time == time && node == null
    {
      this.time := time;
      node := null;
    }
  }

  class EventNode {
    var event: EventInfo?
    var next: EventNode?
    var prev: EventNode?
    /** The number of nodes created before this one, which keeps the nodes of a list apart. */
    ghost const rank: nat

    constructor (ghost rank: nat)
      ensures event == null && next == null && prev == null && this.rank == rank
    {
      event, next, prev := null, null, null;
      this.rank := rank;
    }
  }

  function Times(events: seq<EventInfo>): (ts: seq<int>) {
    seq(|events|, i requires 0 <= i < |events| => events[i].time)
  }

  /** The `k` newest entries of a history kept oldest first. */
  function NewestFirst<T>(h: seq<T>, k: nat): (s: seq<T>)
    requires k <= |h|
    ensures |s| == k
    ensures forall i :: 0 <= i < k ==> s[i] == h[|h| - 1 - i]
  {
    seq(k, i requires 0 <= i < k => h[|h| - 1 - i])
  }

  lemma {:induction false} KeptOneMore(events: seq<EventInfo>, lf: EventInfo, maxSize: int, maxFreq: int)
    ensures var h := Times(events + [lf]);
      Kept(h, maxSize, maxFreq) == Trimmed(h, Kept(Times(events), maxSize, maxFreq) + 1, maxSize, maxFreq)
  {
    var h := Times(events + [lf]);
    assert h[..|h| - 1] == Times(events);
  }

  class EventList {
    var firstNode: EventNode?
    var lastNode: EventNode?
    var lastAddedNode: EventNode?
    var memoryUsed: int
    var memoryMaxSize: int
    var maxFreq: int

    /** Every event ever added and the node made for it, oldest first. The nodes still linked are those from
        `Low` on. */
    ghost var History: seq<EventInfo>
    ghost var Made: seq<EventNode>
    ghost var Low: nat

    /** The chain runs from the sentinel over the newest node down to the oldest, and back. */
    ghost predicate Linked()
      reads `Low, `Made, `firstNode, `lastAddedNode, `lastNode
      reads Made`next, Made`prev, firstNode
    {
      && Low < |Made|
      && (forall i :: 0 <= i < |Made| ==> Made[i].rank == i)
      && firstNode != null && firstNode !in Made
      && firstNode.event == null && firstNode.prev == null && firstNode.next == Made[|Made| - 1]
      && lastAddedNode == Made[|Made| - 1] && lastNode == Made[Low]
      && Made[|Made| - 1].prev == firstNode && Made[Low].next == null
      && (forall i {:trigger Made[i].next} :: Low < i < |Made| ==> Made[i].next == Made[i - 1])
      && (forall i {:trigger Made[i].prev} :: Low <= i < |Made| - 1 ==> Made[i].prev == Made[i + 1])
    }

    /** Every linked node below number `to` and its event point at each other. */
    ghost predicate Carries(to: nat)
      reads `Low, `Made, `History, Made`event, History`node
    {
      && to <= |Made| && to <= |History|
      && (forall i {:trigger Made[i].event} :: Low <= i < to ==> Made[i].event == History[i])
      && (forall i {:trigger History[i].node} :: Low <= i < to ==> History[i].node == Made[i])
    }

    ghost predicate Valid()
      reads this, Made, firstNode, History
    {
      && Low <= |Made| == |History|
      && memoryUsed == |Made| - Low
      && memoryUsed <= Max(1, memoryMaxSize)
      && (if lastAddedNode == null
          then Made == [] && firstNode == null
          else Linked() && Carries(|Made|))
    }

    /** The events in the list, newest first: always the newest events of the history. */
    ghost function Contents(): (s: seq<EventInfo>)
      reads this
      requires Low <= |History|
      ensures |s| == |History| - Low
    {
      NewestFirst(History, |History| - Low)
    }

    /** The list holds exactly what `Kept` says of the whole history under the current settings. */
    ghost predicate TracksKept()
      reads this
    {
      |History| - Low == Kept(Times(History), memoryMaxSize, maxFreq)
    }

    constructor (maxSize: int)
      ensures Valid() && TracksKept()
      ensures History == []
      ensures memoryMaxSize == maxSize && maxFreq == 0
    {
      firstNode, lastNode, lastAddedNode := null, null, null;
      memoryMaxSize, memoryUsed, maxFreq := maxSize, 0, 0;
      History, Made, Low := [], [], 0;
    }

    method AddEvent(lf: EventInfo)
      requires Valid()
      requires forall i :: Low <= i < |History| ==> History[i] != lf
      modifies this, firstNode, Made[Low..], lf
      ensures Valid()
      ensures History == old(History) + [lf] && Made[..|old(Made)|] == old(Made)
      ensures |Contents()| == Trimmed(Times(History), |old(Contents())| + 1, memoryMaxSize, maxFreq)
      ensures if |old(Contents())| < memoryMaxSize then Low == old(Low)
        else Low == |History| - 1 || (Low - old(Low) >= 10 && lf.time - History[Low].time <= maxFreq)
      ensures old(TracksKept()) ==> TracksKept()
      ensures memoryMaxSize == old(memoryMaxSize) && maxFreq == old(maxFreq)
      ensures firstNode != null && if old(firstNode) == null then fresh(firstNode) else firstNode == old(firstNode)
      ensures lastAddedNode != null && fresh(lastAddedNode) && lastAddedNode.event == lf
    {
      hide Kept, Trimmed, Linked, Carries;
      ghost var h := Times(History + [lf]);
      ghost var kept := Kept(h, memoryMaxSize, maxFreq);
      assert TracksKept() ==> kept == Trimmed(h, |Contents()| + 1, memoryMaxSize, maxFreq) by {
        KeptOneMore(History, lf, memoryMaxSize, maxFreq);
      }
      Link(lf);
      Attach(lf);
      assert old(TracksKept()) ==> |Contents()| == kept;
    }

    /** The part of an insertion that changes the chain, for an empty list and for any other. */
    method Link(lf: EventInfo)
      requires Valid()
      modifies this, firstNode, Made[Low..]
      ensures Linked() && |Made| == |History| + 1 && Carries(|History|) && Made[..|History|] == old(Made)
      ensures |Made| - Low == Trimmed(Times(old(History) + [lf]), |old(Made)| - old(Low) + 1, memoryMaxSize, maxFreq)
      ensures if |old(Made)| - old(Low) < memoryMaxSize then Low == old(Low)
        else Low == |History| || (Low - old(Low) >= 10 && lf.time - History[Low].time <= maxFreq)
      ensures memoryUsed == |Made| - Low <= Max(1, memoryMaxSize)
      ensures if old(firstNode) == null then fresh(firstNode) else firstNode == old(firstNode)
      ensures fresh(lastAddedNode)
      ensures SameSettings(old(History), firstNode, old(memoryMaxSize), old(maxFreq))
    {
      if lastAddedNode == null {
        LinkFirst();
      } else {
        LinkAfterSentinel();
        if memoryUsed > memoryMaxSize {
          assert Made[Low..] == old(Made[Low..]) + [lastAddedNode];
          TrimDropsEnough(Times(History + [lf]), |Made| - Low, 0, maxFreq);
          EvictOldest(lf);
        }
      }
    }

    /** The first half of an insertion: a fresh node without event goes between the sentinel and the newest. */
    method LinkAfterSentinel()
      requires Linked() && Carries(|Made|)
      modifies this, firstNode, Made[|Made| - 1]
      ensures Linked() && Carries(|Made| - 1)
      ensures |Made| == |old(Made)| + 1 && Made[..|old(Made)|] == old(Made) && fresh(lastAddedNode)
      ensures memoryUsed == old(memoryUsed) + 1 && Low == old(Low)
      ensures SameSettings(old(History), old(firstNode), old(memoryMaxSize), old(maxFreq))
    {
      hide Linked, Carries;
      LinkedEnds();
      var newNode := new EventNode(|Made|);
      newNode.next := lastAddedNode;
      newNode.prev := firstNode;
      Splice(newNode);
      memoryUsed := memoryUsed + 1;
    }

    lemma {:induction false} LinkedEnds()
      requires Linked()
      ensures firstNode != null && firstNode !in Made && Low < |Made|
      ensures lastAddedNode == Made[|Made| - 1] && lastNode == Made[Low]
      ensures lastNode == lastAddedNode <==> Low == |Made| - 1
    {
    }

    /** The nodes on both sides of the new one are made to point at it. */
    method Splice(newNode: EventNode)
      requires Linked() && Carries(|Made|) && newNode.rank == |Made| && newNode != firstNode
      requires newNode.event == null && newNode.next == lastAddedNode && newNode.prev == firstNode
      modifies this`lastAddedNode, this`Made, firstNode`next, lastAddedNode`prev
      ensures Linked() && Carries(|Made| - 1)
      ensures Made == old(Made) + [newNode]
    {
      ghost var n := |Made|;
      lastAddedNode.prev := newNode;
      firstNode.next := newNode;
      lastAddedNode := newNode;
      Made := Made + [newNode];
      assert forall i {:trigger Made[i].next} :: Low < i < n ==> Made[i].next == old(Made[i].next);
      assert forall i {:trigger Made[i].prev} :: Low <= i < n - 1 ==> Made[i].prev == old(Made[i].prev);
    }

    /** The same for an empty list, which also gets its sentinel now. */
    method LinkFirst()
      requires Valid() && lastAddedNode == null
      modifies this
      ensures Linked() && Carries(0)
      ensures |Made| == 1 && fresh(lastAddedNode) && fresh(firstNode)
      ensures memoryUsed == old(memoryUsed) + 1 && Low == 0
      ensures SameSettings(old(History), firstNode, old(memoryMaxSize), old(maxFreq))
    {
      var second := new EventNode(0);
      if firstNode == null {
        firstNode := new EventNode(0);
      }
      memoryUsed := memoryUsed + 1;
      firstNode.next := second;
      second.prev := firstNode;
      second.next := null;
      lastNode := second;
      lastAddedNode := second;
      Made := [second];
    }

    /** The second half: drop the oldest nodes, ten of them and then those too old for any rule, but never
        the node just added. */
    method EvictOldest(lf: EventInfo)
      requires Linked() && |Made| == |History| + 1 && Carries(|Made| - 1)
      requires memoryUsed == |Made| - Low
      modifies this, Made[Low..]
      ensures Linked() && Carries(|Made| - 1) && Made == old(Made)
      ensures memoryUsed == |Made| - Low == Trim(Times(History + [lf]), |Made| - old(Low), 0, maxFreq)
      ensures Low == |History| || (Low - old(Low) >= 10 && lf.time - History[Low].time <= maxFreq)
      ensures lastAddedNode == old(lastAddedNode)
      ensures SameSettings(old(History), old(firstNode), old(memoryMaxSize), old(maxFreq))
    {
      hide Linked, Carries, Times;
      ghost var h := Times(History + [lf]);
      TimesAre(History + [lf]);
      var i := 0;
      Oldest();
      while lastNode != lastAddedNode && (i < EVICT_AT_LEAST || lf.time - lastNode.event.time > maxFreq)
        invariant Made == old(Made) && |Made| == |History| + 1 && old(Low) <= Low < |Made|
        invariant Linked() && Carries(|Made| - 1)
        invariant lastNode == lastAddedNode <==> Low == |Made| - 1
        invariant lastNode != lastAddedNode ==> lastNode != null && lastNode.event == History[Low]
        invariant memoryUsed == |Made| - Low
        invariant Trim(h, |Made| - Low, i, maxFreq) == Trim(h, |Made| - old(Low), 0, maxFreq)
        invariant lastAddedNode == old(lastAddedNode)
        invariant SameSettings(old(History), old(firstNode), old(memoryMaxSize), old(maxFreq))
        invariant i == Low - old(Low)
        decreases |Made| - Low
      {
        DropLast();
        Oldest();
        i := i + 1;
      }
    }

    lemma {:induction false} TimesAre(events: seq<EventInfo>)
      ensures |Times(events)| == |events| && forall i :: 0 <= i < |events| ==> Times(events)[i] == events[i].time
    {
    }

    lemma {:induction false} Oldest()
      requires Linked() && |Made| == |History| + 1 && Carries(|Made| - 1)
      ensures Low < |Made| && (lastNode == lastAddedNode <==> Low == |Made| - 1)
      ensures lastNode != lastAddedNode ==> lastNode != null && lastNode.event == History[Low]
    {
      LinkedEnds();
    }

    /** One round of the eviction loop: unlink the oldest node and free its event. Freeing an event cuts the
        chain behind the predecessor of the node that the event points at. */
    method DropLast()
      requires Linked() && Low + 1 < |Made| && |Made| == |History| + 1 && Carries(|Made| - 1)
      modifies this, Made[Low + 1]
      ensures Linked() && Carries(|Made| - 1) && Made == old(Made) && Low == old(Low) + 1
      ensures memoryUsed == old(memoryUsed) - 1
      ensures lastAddedNode == old(lastAddedNode)
      ensures SameSettings(old(History), old(firstNode), old(memoryMaxSize), old(maxFreq))
    {
      var oldLast := lastNode;
      lastNode := lastNode.prev;
      lastNode.next := null;
      var freed := oldLast.event;
      if freed.node != null && freed.node.prev != null {
        freed.node.prev.next := null;
      }
      memoryUsed := memoryUsed - 1;
      Low := Low + 1;
    }

    /** The end of an insertion: the new node and the new event point at each other. */
    method Attach(lf: EventInfo)
      requires Linked() && |Made| == |History| + 1 && Carries(|Made| - 1)
      requires forall i :: Low <= i < |History| ==> History[i] != lf
      modifies this`History, lastAddedNode, lf
      ensures Linked() && Carries(|Made|) && History == old(History) + [lf] && lastAddedNode.event == lf
    {
      lastAddedNode.event := lf;
      lf.node := lastAddedNode;
      History := History + [lf];
    }

    /** Retention, read off the list itself. */
    lemma {:induction false} StillListed(j: nat)
      requires Valid() && TracksKept()
      requires j < |History| && Nondecreasing(Times(History))
      requires |History| - j <= memoryMaxSize - 9
      requires History[|History| - 1].time - History[j].time <= maxFreq
      ensures History[j] in Contents()
      ensures Low <= j && Made[j].event == History[j] && History[j].node == Made[j]
    {
      Retention(Times(History), memoryMaxSize, maxFreq, j);
      assert Contents()[|History| - 1 - j] == History[j];
    }

    ghost predicate SameSettings(history: seq<EventInfo>, first: EventNode?, size: int, freq: int)
      reads this
    {
      History == history && firstNode == first && memoryMaxSize == size && maxFreq == freq
    }
  }
}
