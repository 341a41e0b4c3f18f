/** The ring of recent events (internal/topology/ring.go): a fixed buffer that always holds the end
    of everything pushed. */
module EventRing {
  import opened Bgp
  import Quotients

  /** The slot of the event pushed i events before the newest. */
  function Slot(head: nat, cap: nat, i: nat): int {
    if head >= i + 1 then head - 1 - i else head - 1 - i + cap
  }

  /** The index the code computes is that slot. */
  lemma SlotIndex(head: nat, cap: nat, i: nat)
    requires head < cap && i < cap
    ensures 0 <= head - 1 - i + 2 * cap
    ensures (head - 1 - i + 2 * cap) % cap == Slot(head, cap, i) && 0 <= Slot(head, cap, i) < cap
  {
    if head >= i + 1 {
      Quotients.Divides(2, cap, head - 1 - i);
    } else {
      Quotients.Divides(1, cap, head - 1 - i + cap);
    }
  }

  lemma NextHead(head: nat, cap: nat)
    requires head < cap
    ensures (head + 1) % cap == if head + 1 == cap then 0 else head + 1
  {
    if head + 1 == cap {
      Quotients.Divides(1, cap, 0);
    } else {
      Quotients.Divides(0, cap, head + 1);
    }
  }

  /** The newest k events of a history, newest first. */
  function Newest(h: seq<ClassifiedEvent>, k: nat): (r: seq<ClassifiedEvent>)
    requires k <= |h|
    ensures |r| == k
    ensures forall i {:trigger r[i]} :: 0 <= i < k ==> r[i] == h[|h| - 1 - i]
  {
    seq(k, i requires 0 <= i < k => h[|h| - 1 - i])
  }

  /** The path goes directly from `from` to `to`. */
  predicate HasEdge(path: seq<Asn>, from: Asn, to: Asn) {
    exists i :: 0 <= i < |path| - 1 && path[i] == from && path[i + 1] == to
  }

  /** The events that traverse an adjacency, in the order given. */
  function Traversing(evs: seq<ClassifiedEvent>, from: Asn, to: Asn): (r: seq<ClassifiedEvent>)
    ensures |r| <= |evs|
  {
    if |evs| == 0 then []
    else
      var r := Traversing(evs[..|evs| - 1], from, to);
      if HasEdge(Last(evs).event.asPath, from, to) then r + [Last(evs)] else r
  }

  lemma NothingTraversed(evs: seq<ClassifiedEvent>, from: Asn, to: Asn)
    ensures Traversing(evs[..0], from, to) == []
  {
  }

  lemma OneMoreTraversed(evs: seq<ClassifiedEvent>, from: Asn, to: Asn, i: nat)
    requires i < |evs|
    ensures Traversing(evs[..i + 1], from, to) ==
      Traversing(evs[..i], from, to) + if HasEdge(evs[i].event.asPath, from, to) then [evs[i]] else []
  {
    assert evs[..i + 1][..i] == evs[..i];
  }

  lemma {:induction false} TraversingPrefix(evs: seq<ClassifiedEvent>, from: Asn, to: Asn, n: nat)
    requires n <= |evs|
    ensures Traversing(evs[..n], from, to) <= Traversing(evs, from, to)
  {
    if n < |evs| {
      var shorter := evs[..|evs| - 1];
      TraversingPrefix(shorter, from, to, n);
      assert shorter[..n] == evs[..n];
    } else {
      assert evs[..n] == evs;
    }
  }

  method PathHasEdge(path: seq<Asn>, from: Asn, to: Asn) returns (r: bool)
    ensures r <==> HasEdge(path, from, to)
  {
    var i := 0;
    while i + 1 < |path|
      invariant 0 <= i
      invariant forall k :: 0 <= k < i && k < |path| - 1 ==> !(path[k] == from && path[k + 1] == to)
      decreases |path| - i
    {
      if path[i] == from && path[i + 1] == to {
        return true;
      }
      i := i + 1;
    }
    return false;
  }

  class EventRing {
    const buf: array<ClassifiedEvent>
    const cap: nat
    var head: nat
    var size: nat
    ghost var pushed: seq<ClassifiedEvent>

    ghost predicate Valid()
      reads this, buf
    {
      && cap == buf.Length && cap >= 1 && head < cap
      && size == (if |pushed| < cap then |pushed| else cap)
      && (size < cap ==> head == size)
      && forall i :: 0 <= i < size ==> 0 <= Slot(head, cap, i) < cap && buf[Slot(head, cap, i)] == pushed[|pushed| - 1 - i]
    }

    constructor (capacity: int)
      ensures Valid() && fresh(buf)
      ensures pushed == [] && cap == if capacity < 1 then 1 else capacity
    {
      var c := if capacity < 1 then 1 else capacity;
      buf := new ClassifiedEvent[c];
      cap, head, size, pushed := c, 0, 0, [];
    }

    /** Appends, overwriting the oldest event when full. */
    method Push(ev: ClassifiedEvent)
      requires Valid()
      modifies this, buf
      ensures Valid()
      ensures pushed == old(pushed) + [ev]
    {
      NextHead(head, cap);
      ghost var oldHead := head;
      buf[head] := ev;
      head := (head + 1) % cap;
      if size < cap {
        size := size + 1;
      }
      pushed := pushed + [ev];
      forall i | 0 <= i < size
        ensures 0 <= Slot(head, cap, i) < cap && buf[Slot(head, cap, i)] == pushed[|pushed| - 1 - i]
      {
        if i > 0 {
          assert Slot(head, cap, i) == Slot(oldHead, cap, i - 1);
        }
      }
    }

    /** Up to limit of the newest events, newest first; all that are held when limit is not in range. */
    method Recent(limit: int) returns (out: seq<ClassifiedEvent>)
      requires Valid()
      ensures size <= |pushed|
      ensures out == Newest(pushed, if limit <= 0 || limit > size then size else limit)
    {
      var k := limit;
      if k <= 0 || k > size {
        k := size;
      }
      out := [];
      for i := 0 to k
        invariant out == Newest(pushed, i)
      {
        SlotIndex(head, cap, i);
        out := out + [buf[(head - 1 - i + 2 * cap) % cap]];
      }
    }

    /** Up to limit of the held events that traverse the adjacency, newest first. */
    method ByEdge(from: Asn, to: Asn, limit: nat) returns (out: seq<ClassifiedEvent>)
      requires Valid()
      ensures size <= |pushed|
      ensures var all := Traversing(Newest(pushed, size), from, to);
        out == all[..if limit < |all| then limit else |all|]
    {
      hide Traversing, HasEdge;
      out := [];
      var i := 0;
      ghost var held := Newest(pushed, size);
      NothingTraversed(held, from, to);
      while i < size && |out| < limit
        invariant 0 <= i <= size
        invariant out == Traversing(held[..i], from, to)
        invariant |out| <= limit
      {
        SlotIndex(head, cap, i);
        var ev := buf[(head - 1 - i + 2 * cap) % cap];
        OneMoreTraversed(held, from, to, i);
        var hit := PathHasEdge(ev.event.asPath, from, to);
        if hit {
          out := out + [ev];
        }
        i := i + 1;
      }
      TraversingPrefix(held, from, to, i);
      assert i == size ==> held[..i] == held;
    }
  }
}
