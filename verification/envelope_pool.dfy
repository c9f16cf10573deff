/** The bounded free-list of reusable envelopes. The same code appears three
    times in the runtime (Transaction, ExecutorActorThread.DeliverRunnable and
    ActorService.Transaction); it is modelled once here. The free-list is an
    intrusive singly linked stack: `top` is the head, each pooled envelope's
    `next` field links to the one below it, and `size` counts the pooled
    envelopes. `FreeList` is the abstraction obtained by walking the links. */
module EnvelopePool {
  import opened Wrappers
  import opened Runtime

  const MAX_POOL_SIZE: nat := 5

  /** One envelope object: the three payload fields and the intrusive link. */
  datatype Envelope = Envelope(message: Option<Message>, impl: Option<Ref>,
                               handler: Option<Ref>, next: Option<Ref>)

  /** The envelope heap, the pool's head and size, and the next fresh identity. */
  datatype Pool = Pool(heap: map<Ref, Envelope>, top: Option<Ref>, size: int, nextFresh: Ref)

  datatype Obtained = Obtained(pool: Pool, envelope: Ref)

  /** The `n` envelopes reached from `top` by following `next`, provided the
      walk ends on `null` after exactly `n` steps. */
  function Chain(heap: map<Ref, Envelope>, top: Option<Ref>, n: nat): Option<seq<Ref>>
    decreases n
  {
    if n == 0 then (if top.None? then Some([]) else None)
    else if top.None? || top.value !in heap then None
    else match Chain(heap, heap[top.value].next, n - 1)
      case None => None
      case Some(rest) => Some([top.value] + rest)
  }

  predicate Distinct(s: seq<Ref>)
  {
    forall i, j :: 0 <= i < j < |s| ==> s[i] != s[j]
  }

  predicate Valid(p: Pool)
  {
    && 0 <= p.size <= MAX_POOL_SIZE
    && (forall r :: r in p.heap ==> r < p.nextFresh)
    && Chain(p.heap, p.top, p.size).Some?
    && Distinct(Chain(p.heap, p.top, p.size).value)
  }

  /** The pooled envelopes, top first. */
  function FreeList(p: Pool): (fl: seq<Ref>)
    requires Valid(p)
    ensures |fl| == p.size <= MAX_POOL_SIZE
    ensures forall x :: x in fl ==> x in p.heap
  {
    ChainShape(p.heap, p.top, p.size);
    Chain(p.heap, p.top, p.size).value
  }

  /** The pool as the class loader creates it: nothing allocated, nothing pooled. */
  const EmptyPool := Pool(map[], None, 0, 0)

  /** An envelope handed out by `obtain` and not yet recycled. */
  predicate InFlight(p: Pool, r: Ref)
    requires Valid(p)
  {
    r in p.heap && r !in FreeList(p)
  }

  /** An envelope handed out and holding a message, an actor and a failure
      handler, as `obtain` leaves it. */
  predicate Filled(p: Pool, r: Ref)
    requires Valid(p)
  {
    InFlight(p, r) && p.heap[r].message.Some? && p.heap[r].impl.Some? && p.heap[r].handler.Some?
  }

  lemma {:induction false} ChainShape(heap: map<Ref, Envelope>, top: Option<Ref>, n: nat)
    requires Chain(heap, top, n).Some?
    ensures var s := Chain(heap, top, n).value;
      && |s| == n
      && (forall x :: x in s ==> x in heap)
      && (n == 0 <==> top.None?)
      && (n > 0 ==> top == Some(s[0]) && heap[s[n - 1]].next.None?)
      && (forall i :: 0 <= i < n - 1 ==> heap[s[i]].next == Some(s[i + 1]))
    decreases n
  {
    if n > 0 {
      ChainShape(heap, heap[top.value].next, n - 1);
    }
  }

  /** Changing an envelope that is not on the chain leaves the chain as it is. */
  lemma {:induction false} ChainFrame(heap: map<Ref, Envelope>, top: Option<Ref>, n: nat, r: Ref, e: Envelope)
    requires Chain(heap, top, n).Some? && r !in Chain(heap, top, n).value
    ensures Chain(heap[r := e], top, n) == Chain(heap, top, n)
    decreases n
  {
    if n > 0 {
      ChainFrame(heap, heap[top.value].next, n - 1, r, e);
    }
  }

  /** `obtain(impl, message, handler)`: pop the top envelope, or allocate a
      fresh one when the pool is empty, and fill in the three fields. */
  function Obtain(p: Pool, impl: Ref, message: Message, handler: Ref): (o: Obtained)
    requires Valid(p)
    ensures Valid(o.pool)
    ensures o.envelope in o.pool.heap
    ensures o.pool.heap[o.envelope] == Envelope(Some(message), Some(impl), Some(handler), None)
    ensures FreeList(p) != [] ==> o.envelope == FreeList(p)[0] && FreeList(o.pool) == FreeList(p)[1..]
    ensures FreeList(p) == [] ==> o.envelope !in p.heap && FreeList(o.pool) == []
    ensures o.pool.size == |FreeList(o.pool)|
    ensures o.pool.heap.Keys == p.heap.Keys + {o.envelope}
    ensures forall x :: x in p.heap && x != o.envelope ==> o.pool.heap[x] == p.heap[x]
    ensures InFlight(o.pool, o.envelope)
  {
    ChainShape(p.heap, p.top, p.size);
    var filled := Envelope(Some(message), Some(impl), Some(handler), None);
    if p.top.Some? then
      var r := p.top.value;
      PopFrame(p, filled);
      var q := Pool(p.heap[r := filled], p.heap[r].next, p.size - 1, p.nextFresh);
      assert FreeList(q) == FreeList(p)[1..];
      Obtained(q, r)
    else
      var r := p.nextFresh;
      var q := Pool(p.heap[r := filled], None, p.size, p.nextFresh + 1);
      Obtained(q, r)
  }

  /** Popping the top envelope and overwriting it leaves the rest of the
      free-list intact. */
  lemma PopFrame(p: Pool, e: Envelope)
    requires Valid(p) && p.top.Some?
    ensures var r := p.top.value;
      && r in p.heap && FreeList(p) == [r] + FreeList(p)[1..]
      && r !in FreeList(p)[1..] && Distinct(FreeList(p)[1..])
      && Chain(p.heap[r := e], p.heap[r].next, p.size - 1) == Some(FreeList(p)[1..])
  {
    ChainShape(p.heap, p.top, p.size);
    var r := p.top.value;
    var fl := FreeList(p);
    var rest := Chain(p.heap, p.heap[r].next, p.size - 1).value;
    assert fl == [r] + rest;
    assert rest == fl[1..];
    assert r !in rest && Distinct(rest) by {
      forall i | 0 <= i < |rest| ensures rest[i] != r {
        assert fl[i + 1] == rest[i];
      }
      forall i, j | 0 <= i < j < |rest| ensures rest[i] != rest[j] {
        assert fl[i + 1] == rest[i] && fl[j + 1] == rest[j];
      }
    }
    ChainFrame(p.heap, p.heap[r].next, p.size - 1, r, e);
  }

  /** `recycle()`: clear the three fields, then push the envelope if the pool
      holds fewer than MAX_POOL_SIZE envelopes; otherwise it stays unlinked. */
  function Recycle(p: Pool, r: Ref): (q: Pool)
    requires Valid(p) && InFlight(p, r)
    ensures Valid(q)
    ensures r in q.heap && q.heap[r].message.None? && q.heap[r].impl.None? && q.heap[r].handler.None?
    ensures |FreeList(p)| < MAX_POOL_SIZE ==> FreeList(q) == [r] + FreeList(p)
    ensures |FreeList(p)| == MAX_POOL_SIZE ==> FreeList(q) == FreeList(p) && q.heap[r].next == p.heap[r].next
    ensures q.heap.Keys == p.heap.Keys && q.nextFresh == p.nextFresh
    ensures forall x :: x in p.heap && x != r ==> q.heap[x] == p.heap[x]
  {
    ChainShape(p.heap, p.top, p.size);
    var e := p.heap[r];
    var cleared := Envelope(None, None, None, e.next);
    if p.size < MAX_POOL_SIZE then
      var pushed := cleared.(next := p.top);
      ChainFrame(p.heap, p.top, p.size, r, pushed);
      var q := Pool(p.heap[r := pushed], Some(r), p.size + 1, p.nextFresh);
      assert Chain(q.heap, q.top, q.size) == Some([r] + FreeList(p));
      q
    else
      ChainFrame(p.heap, p.top, p.size, r, cleared);
      Pool(p.heap[r := cleared], p.top, p.size, p.nextFresh)
  }

  /** `clearPool()`: forget every pooled envelope and reset the size to 0. */
  function ClearPool(p: Pool): (q: Pool)
    requires Valid(p)
    ensures Valid(q) && FreeList(q) == [] && q.size == 0
    ensures q.heap == p.heap
  {
    Pool(p.heap, None, 0, p.nextFresh)
  }

  /** The pool never holds more than MAX_POOL_SIZE envelopes, and each pooled
      envelope's `next` names the one below it; the bottom one links to null. */
  lemma PoolLinks(p: Pool)
    requires Valid(p)
    ensures |FreeList(p)| == p.size <= MAX_POOL_SIZE
    ensures forall i :: 0 <= i < |FreeList(p)| - 1 ==> p.heap[FreeList(p)[i]].next == Some(FreeList(p)[i + 1])
    ensures FreeList(p) != [] ==> p.top == Some(FreeList(p)[0]) && p.heap[FreeList(p)[|FreeList(p)| - 1]].next.None?
    ensures FreeList(p) == [] <==> p.top.None?
  {
    ChainShape(p.heap, p.top, p.size);
  }

  /** Recycling then obtaining hands back the same envelope (LIFO reuse). */
  lemma RecycleThenObtain(p: Pool, r: Ref, impl: Ref, message: Message, handler: Ref)
    requires Valid(p) && InFlight(p, r) && |FreeList(p)| < MAX_POOL_SIZE
    ensures Obtain(Recycle(p, r), impl, message, handler).envelope == r
  {
  }

  function Reverse(s: seq<Ref>): (r: seq<Ref>)
    ensures |r| == |s|
    ensures forall i :: 0 <= i < |s| ==> r[i] == s[|s| - 1 - i]
  {
    if s == [] then [] else Reverse(s[1..]) + [s[0]]
  }

  function Min(a: nat, b: nat): nat { if a < b then a else b }

  /** Recycling one envelope of a batch leaves the rest of the batch in flight. */
  lemma RecycleRestInFlight(p: Pool, rs: seq<Ref>)
    requires Valid(p) && Distinct(rs) && rs != [] && forall x :: x in rs ==> InFlight(p, x)
    ensures Distinct(rs[1..])
    ensures forall x :: x in rs[1..] ==> InFlight(Recycle(p, rs[0]), x)
  {
    var p1 := Recycle(p, rs[0]);
    forall x | x in rs[1..] ensures InFlight(p1, x) {
      var k :| 0 <= k < |rs[1..]| && rs[1..][k] == x;
      assert rs[k + 1] == x && rs[0] != rs[k + 1];
      assert InFlight(p, rs[k + 1]);
    }
  }

  /** Recycle each envelope of `rs` in order. */
  function RecycleAll(p: Pool, rs: seq<Ref>): (q: Pool)
    requires Valid(p) && Distinct(rs) && forall x :: x in rs ==> InFlight(p, x)
    ensures Valid(q) && q.heap.Keys == p.heap.Keys
    decreases |rs|
  {
    if rs == [] then p
    else
      var p1 := Recycle(p, rs[0]);
      RecycleRestInFlight(p, rs);
      RecycleAll(p1, rs[1..])
  }

  /** Recycling a batch pushes its first envelopes until the pool is full:
      the free-list becomes those envelopes, last recycled on top, above the
      old free-list; the rest are dropped. */
  /** What recycling a batch does to the free-list, stated on sequences alone. */
  function PushAll(fl: seq<Ref>, rs: seq<Ref>): seq<Ref>
    decreases |rs|
  {
    if rs == [] then fl
    else PushAll(if |fl| < MAX_POOL_SIZE then [rs[0]] + fl else fl, rs[1..])
  }

  lemma {:induction false} RecycleAllPushAll(p: Pool, rs: seq<Ref>)
    requires Valid(p) && Distinct(rs) && forall x :: x in rs ==> InFlight(p, x)
    ensures FreeList(RecycleAll(p, rs)) == PushAll(FreeList(p), rs)
    decreases |rs|
  {
    if rs != [] {
      var p1 := Recycle(p, rs[0]);
      RecycleRestInFlight(p, rs);
      RecycleAllPushAll(p1, rs[1..]);
    }
  }

  lemma {:induction false} PushAllReverse(fl: seq<Ref>, rs: seq<Ref>)
    requires |fl| <= MAX_POOL_SIZE
    ensures PushAll(fl, rs) == Reverse(rs[..Min(|rs|, MAX_POOL_SIZE - |fl|)]) + fl
    decreases |rs|
  {
    if rs != [] {
      var m := Min(|rs|, MAX_POOL_SIZE - |fl|);
      if |fl| < MAX_POOL_SIZE {
        PushAllReverse([rs[0]] + fl, rs[1..]);
        ReverseStep(rs, m);
      } else {
        PushAllReverse(fl, rs[1..]);
      }
    }
  }

  /** Recycling a batch pushes its first envelopes until the pool is full:
      the free-list becomes those envelopes, last recycled on top, above the
      old free-list; the rest are dropped. */
  lemma RecycleAllFreeList(p: Pool, rs: seq<Ref>)
    requires Valid(p) && Distinct(rs) && forall x :: x in rs ==> InFlight(p, x)
    ensures var m := Min(|rs|, MAX_POOL_SIZE - |FreeList(p)|);
      FreeList(RecycleAll(p, rs)) == Reverse(rs[..m]) + FreeList(p)
  {
    RecycleAllPushAll(p, rs);
    PushAllReverse(FreeList(p), rs);
  }

  lemma ReverseStep(rs: seq<Ref>, m: nat)
    requires 0 < m <= |rs|
    ensures Reverse(rs[1..][..m - 1]) + [rs[0]] == Reverse(rs[..m])
  {
    assert rs[1..][..m - 1] == rs[..m][1..];
  }

  /** Obtain `k` envelopes in a row (payload fields are irrelevant here). */
  function ObtainAll(p: Pool, k: nat, impl: Ref, message: Message, handler: Ref): (res: (Pool, seq<Ref>))
    requires Valid(p)
    ensures Valid(res.0) && |res.1| == k
    ensures k <= |FreeList(p)| ==> res.0.heap.Keys == p.heap.Keys
    decreases k
  {
    if k == 0 then (p, [])
    else
      var o := Obtain(p, impl, message, handler);
      var rest := ObtainAll(o.pool, k - 1, impl, message, handler);
      (rest.0, [o.envelope] + rest.1)
  }

  /** Obtaining repeatedly hands out the pooled envelopes top first; once the
      pool is exhausted, the next one is a fresh allocation. */
  lemma {:induction false} ObtainAllFreeList(p: Pool, k: nat, impl: Ref, message: Message, handler: Ref)
    requires Valid(p) && k <= |FreeList(p)|
    ensures ObtainAll(p, k, impl, message, handler).1 == FreeList(p)[..k]
    ensures FreeList(ObtainAll(p, k, impl, message, handler).0) == FreeList(p)[k..]
    decreases k
  {
    if k > 0 {
      var fl := FreeList(p);
      var o := Obtain(p, impl, message, handler);
      assert o.envelope == fl[0] && FreeList(o.pool) == fl[1..];
      ObtainAllFreeList(o.pool, k - 1, impl, message, handler);
      assert fl[1..][..k - 1] == fl[1..k] && fl[1..][k - 1..] == fl[k..];
      assert fl[..k] == [fl[0]] + fl[1..k];
    }
  }

  /** Envelopes recycled one after another into an empty pool form a chain:
      each links to the one recycled before it, and the first links to null. */
  lemma RecycleIntoEmptyLinks(p: Pool, rs: seq<Ref>)
    requires Valid(p) && FreeList(p) == [] && |rs| <= MAX_POOL_SIZE
    requires Distinct(rs) && forall x :: x in rs ==> InFlight(p, x)
    ensures var q := RecycleAll(p, rs);
      && FreeList(q) == Reverse(rs)
      && (forall i :: 1 <= i < |rs| ==> rs[i] in q.heap && q.heap[rs[i]].next == Some(rs[i - 1]))
      && (rs != [] ==> rs[0] in q.heap && q.heap[rs[0]].next.None?)
  {
    var q := RecycleAll(p, rs);
    RecycleAllFreeList(p, rs);
    assert rs[..|rs|] == rs;
    PoolLinks(q);
    ReversedLinks(q.heap, FreeList(q), rs);
  }

  lemma ReversedLinks(heap: map<Ref, Envelope>, fl: seq<Ref>, rs: seq<Ref>)
    requires fl == Reverse(rs)
    requires forall x :: x in fl ==> x in heap
    requires forall i :: 0 <= i < |fl| - 1 ==> heap[fl[i]].next == Some(fl[i + 1])
    requires fl != [] ==> heap[fl[|fl| - 1]].next.None?
    ensures forall i :: 1 <= i < |rs| ==> rs[i] in heap && heap[rs[i]].next == Some(rs[i - 1])
    ensures rs != [] ==> rs[0] in heap && heap[rs[0]].next.None?
  {
    forall i | 1 <= i < |rs| ensures rs[i] in heap && heap[rs[i]].next == Some(rs[i - 1]) {
      var j := |rs| - 1 - i;
      assert fl[j] == rs[i] && fl[j + 1] == rs[i - 1];
      assert fl[j] in fl;
      assert heap[fl[j]].next == Some(fl[j + 1]);
    }
    if rs != [] {
      assert fl[|fl| - 1] == rs[0] && fl[|fl| - 1] in fl;
    }
  }

  /** The pool keeps at most MAX_POOL_SIZE envelopes: after MAX_POOL_SIZE + 1
      envelopes are recycled into an empty pool, the next MAX_POOL_SIZE obtains
      return the first MAX_POOL_SIZE of them, most recent first, and the obtain
      after that allocates a new envelope instead of reusing the last one. */
  lemma PoolCapacity(p: Pool, rs: seq<Ref>, impl: Ref, message: Message, handler: Ref)
    requires Valid(p) && FreeList(p) == [] && |rs| == MAX_POOL_SIZE + 1
    requires Distinct(rs) && forall x :: x in rs ==> InFlight(p, x)
    ensures var n := |rs| - 1;
      var got := ObtainAll(RecycleAll(p, rs), n, impl, message, handler);
      && got.1 == Reverse(rs[..n])
      && Obtain(got.0, impl, message, handler).envelope !in p.heap
      && Obtain(got.0, impl, message, handler).envelope !in rs
  {
    var n := |rs| - 1;
    var q := RecycleAll(p, rs);
    RecycleAllFreeList(p, rs);
    assert FreeList(q) == Reverse(rs[..n]);
    ObtainAllFreeList(q, n, impl, message, handler);
    var got := ObtainAll(q, n, impl, message, handler);
    FreshWhenEmpty(got.0, p.heap.Keys, impl, message, handler);
    forall x | x in rs ensures x in p.heap {
      assert InFlight(p, x);
    }
  }

  lemma FreshWhenEmpty(p: Pool, keys: set<Ref>, impl: Ref, message: Message, handler: Ref)
    requires Valid(p) && FreeList(p) == [] && p.heap.Keys == keys
    ensures Obtain(p, impl, message, handler).envelope !in keys
  {
  }

  /** Obtaining never hands out an envelope that is still in use, and leaves
      every envelope in use as it was. */
  lemma ObtainKeepsFilled(p: Pool, impl: Ref, message: Message, handler: Ref, x: Ref)
    requires Valid(p) && Filled(p, x)
    ensures var o := Obtain(p, impl, message, handler);
      x != o.envelope && Filled(o.pool, x) && o.pool.heap[x] == p.heap[x]
  {
    var o := Obtain(p, impl, message, handler);
    if FreeList(p) != [] {
      assert FreeList(o.pool) == FreeList(p)[1..];
      assert x != FreeList(p)[0];
    }
  }

  /** Recycling one envelope leaves every other envelope in use as it was. */
  lemma RecycleKeepsFilled(p: Pool, r: Ref, x: Ref)
    requires Valid(p) && InFlight(p, r) && Filled(p, x) && x != r
    ensures Filled(Recycle(p, r), x) && Recycle(p, r).heap[x] == p.heap[x]
  {
  }
}
