/** The root's reorder buffer: results come back from the workers in any
    order, each tagged with the sequence number of its piece; the root
    appends them to the output in sequence-number order, parking early ones
    in a binary heap, and drains whatever is left in the heap at the end.
    The heap is `BinaryHeap<Reverse<(u32, Vec<u8>)>>`, a min-heap on the pair
    (sequence number, bytes); it is modelled as a sequence kept sorted on that
    key, so a pop takes the first element. */
module Bzip2Reorder {
  import opened Bzip2Chunks

  /** A returned result: its sequence number and its bytes. */
  datatype Entry = Entry(sn: nat, buf: seq<byte>)

  /** The bytes of the entries, one after the other. */
  function Flatten(es: seq<Entry>): seq<byte>
  {
    if es == [] then [] else es[0].buf + Flatten(es[1..])
  }

  lemma {:induction false} FlattenAppend(a: seq<Entry>, b: seq<Entry>)
    ensures Flatten(a + b) == Flatten(a) + Flatten(b)
  {
    if a == [] {
      assert a + b == b;
    } else {
      assert (a + b)[1..] == a[1..] + b;
      FlattenAppend(a[1..], b);
    }
  }

  // ---------------------------------------------------------------------
  // The heap's order: `Ord` of `(u32, Vec<u8>)`.

  /** `Ord for Vec<u8>`: lexicographic, a proper prefix first. */
  predicate BytesLe(a: seq<byte>, b: seq<byte>)
  {
    if a == [] then true
    else if b == [] then false
    else a[0] < b[0] || (a[0] == b[0] && BytesLe(a[1..], b[1..]))
  }

  lemma {:induction false} BytesLeTotal(a: seq<byte>, b: seq<byte>)
    ensures BytesLe(a, b) || BytesLe(b, a)
  {
    if a != [] && b != [] && a[0] == b[0] {
      BytesLeTotal(a[1..], b[1..]);
    }
  }

  lemma {:induction false} BytesLeTrans(a: seq<byte>, b: seq<byte>, c: seq<byte>)
    requires BytesLe(a, b) && BytesLe(b, c)
    ensures BytesLe(a, c)
  {
    if a != [] && b != [] && c != [] && a[0] == b[0] == c[0] {
      BytesLeTrans(a[1..], b[1..], c[1..]);
    }
  }

  lemma {:induction false} BytesLeAntisym(a: seq<byte>, b: seq<byte>)
    requires BytesLe(a, b) && BytesLe(b, a)
    ensures a == b
  {
    if a != [] && b != [] {
      BytesLeAntisym(a[1..], b[1..]);
      assert a == [a[0]] + a[1..] && b == [b[0]] + b[1..];
    }
  }

  /** The key order of the heap: sequence number first, then the bytes. */
  predicate KeyLe(x: Entry, y: Entry)
  {
    x.sn < y.sn || (x.sn == y.sn && BytesLe(x.buf, y.buf))
  }

  lemma KeyLeTotal(x: Entry, y: Entry)
    ensures KeyLe(x, y) || KeyLe(y, x)
  {
    BytesLeTotal(x.buf, y.buf);
  }

  lemma KeyLeTrans(x: Entry, y: Entry, z: Entry)
    requires KeyLe(x, y) && KeyLe(y, z)
    ensures KeyLe(x, z)
  {
    if x.sn == y.sn == z.sn {
      BytesLeTrans(x.buf, y.buf, z.buf);
    }
  }

  lemma KeyLeAntisym(x: Entry, y: Entry)
    requires KeyLe(x, y) && KeyLe(y, x)
    ensures x == y
  {
    BytesLeAntisym(x.buf, y.buf);
  }

  predicate Sorted(h: seq<Entry>)
  {
    forall i, j :: 0 <= i < j < |h| ==> KeyLe(h[i], h[j])
  }

  /** Sequence numbers strictly increasing. */
  predicate StrictSns(h: seq<Entry>)
  {
    forall i, j :: 0 <= i < j < |h| ==> h[i].sn < h[j].sn
  }

  // ---------------------------------------------------------------------
  // The heap as a sorted sequence.

  /** `push`: the entry goes in front of the first entry it does not follow. */
  function Insert(h: seq<Entry>, x: Entry): (r: seq<Entry>)
    ensures |r| == |h| + 1
  {
    if h == [] || KeyLe(x, h[0]) then [x] + h else [h[0]] + Insert(h[1..], x)
  }

  lemma {:induction false} InsertMultiset(h: seq<Entry>, x: Entry)
    ensures multiset(Insert(h, x)) == multiset(h) + multiset{x}
  {
    if h == [] || KeyLe(x, h[0]) {
      assert Insert(h, x) == [x] + h;
    } else {
      InsertMultiset(h[1..], x);
      assert h == [h[0]] + h[1..];
      assert Insert(h, x) == [h[0]] + Insert(h[1..], x);
    }
  }

  lemma InsertMembers(h: seq<Entry>, x: Entry)
    ensures forall e :: e in Insert(h, x) <==> e == x || e in h
  {
    InsertMultiset(h, x);
    assert forall e :: e in Insert(h, x) <==> e in multiset(Insert(h, x));
  }

  /** A push keeps the heap sorted. */
  lemma {:induction false} InsertSorted(h: seq<Entry>, x: Entry)
    requires Sorted(h)
    ensures Sorted(Insert(h, x))
  {
    var r := Insert(h, x);
    if h == [] || KeyLe(x, h[0]) {
      forall j | 1 <= j < |r|
        ensures KeyLe(x, r[j])
      {
        if j > 1 {
          KeyLeTrans(x, h[0], h[j - 1]);
        }
      }
    } else {
      KeyLeTotal(x, h[0]);
      var t := Insert(h[1..], x);
      InsertSorted(h[1..], x);
      InsertMembers(h[1..], x);
      forall j | 0 <= j < |t|
        ensures KeyLe(h[0], t[j])
      {
        assert t[j] in t;
      }
      assert r == [h[0]] + t;
    }
  }

  /** A push of an entry whose sequence number is not in the heap keeps the
      sequence numbers strictly increasing. */
  lemma {:induction false} InsertStrict(h: seq<Entry>, x: Entry)
    requires StrictSns(h) && forall e :: e in h ==> e.sn != x.sn
    ensures StrictSns(Insert(h, x))
  {
    var r := Insert(h, x);
    if h == [] || KeyLe(x, h[0]) {
      assert h != [] ==> h[0] in h;
    } else {
      var t := Insert(h[1..], x);
      assert forall e :: e in h[1..] ==> e in h;
      InsertStrict(h[1..], x);
      InsertMembers(h[1..], x);
      forall j | 0 <= j < |t|
        ensures h[0].sn < t[j].sn
      {
        assert t[j] in t;
      }
      assert r == [h[0]] + t;
    }
  }

  /** Pushing back the entry just popped restores the heap. */
  lemma InsertMin(h: seq<Entry>)
    requires h != [] && Sorted(h)
    ensures Insert(h[1..], h[0]) == h
  {
    if |h| > 1 {
      assert KeyLe(h[0], h[1]);
    }
  }

  /** The first of a sorted sequence comes no later than any of its entries. */
  lemma SortedFirst(a: seq<Entry>, e: Entry)
    requires Sorted(a) && e in a
    ensures KeyLe(a[0], e)
  {
    var j :| 0 <= j < |a| && a[j] == e;
    if j == 0 {
      BytesLeTotal(e.buf, e.buf);
    }
  }

  lemma MultisetTails(a: seq<Entry>, b: seq<Entry>)
    requires a != [] && b != [] && a[0] == b[0] && multiset(a) == multiset(b)
    ensures multiset(a[1..]) == multiset(b[1..])
  {
    assert a == [a[0]] + a[1..] && b == [b[0]] + b[1..];
    assert multiset(a[1..]) == multiset(a) - multiset{a[0]};
    assert multiset(b[1..]) == multiset(b) - multiset{b[0]};
  }

  /** Two sorted arrangements of the same entries are the same sequence. */
  lemma {:induction false} SortedUnique(a: seq<Entry>, b: seq<Entry>)
    requires Sorted(a) && Sorted(b) && multiset(a) == multiset(b)
    ensures a == b
  {
    assert |a| == |multiset(a)| == |b|;
    if a != [] {
      assert a[0] in multiset(b) && b[0] in multiset(a);
      SortedFirst(b, a[0]);
      SortedFirst(a, b[0]);
      KeyLeAntisym(a[0], b[0]);
      MultisetTails(a, b);
      SortedUnique(a[1..], b[1..]);
      assert a == [a[0]] + a[1..] && b == [b[0]] + b[1..];
    }
  }

  /** The reference order: the entries sorted on the heap's key. */
  function Sort(es: seq<Entry>): (r: seq<Entry>)
  {
    if es == [] then [] else Insert(Sort(es[1..]), es[0])
  }

  /** `Sort` is a sorted permutation. */
  lemma {:induction false} SortFacts(es: seq<Entry>)
    ensures Sorted(Sort(es)) && multiset(Sort(es)) == multiset(es)
  {
    if es != [] {
      SortFacts(es[1..]);
      InsertSorted(Sort(es[1..]), es[0]);
      InsertMultiset(Sort(es[1..]), es[0]);
      assert es == [es[0]] + es[1..];
    }
  }

  // ---------------------------------------------------------------------
  // The reorder loop.

  /** Entry `i` has sequence number `i`. */
  predicate InSequence(es: seq<Entry>)
  {
    forall i :: 0 <= i < |es| ==> es[i].sn == i
  }

  /** The arrivals carry the sequence numbers 0 .. n - 1, each once: what
      the workers send back for the `n` pieces the root sent out. */
  predicate DistinctRange(arrivals: seq<Entry>)
  {
    (forall i, j :: 0 <= i < j < |arrivals| ==> arrivals[i].sn != arrivals[j].sn) &&
    (forall i :: 0 <= i < |arrivals| ==> arrivals[i].sn < |arrivals|)
  }

  /** What holds between receives: `output` holds the pieces `taken` so
      far, which are numbered 0 .. cur - 1; the taken and the parked
      entries are exactly the arrivals received so far; the heap is sorted;
      and for well-numbered arrivals the parked sequence numbers are all
      past `cur` and distinct. */
  ghost predicate Between(arrivals: seq<Entry>, k: nat, heap: seq<Entry>, taken: seq<Entry>, cur: nat, output: seq<byte>)
  {
    k <= |arrivals| && output == Flatten(taken) && |taken| == cur && InSequence(taken) &&
    Sorted(heap) && multiset(taken) + multiset(heap) == multiset(arrivals[..k]) &&
    (DistinctRange(arrivals) ==> StrictSns(heap) && forall e :: e in heap ==> e.sn >= cur)
  }

  lemma TakeFacts(taken: seq<Entry>, x: Entry, output: seq<byte>)
    requires output == Flatten(taken) && InSequence(taken) && x.sn == |taken|
    ensures output + x.buf == Flatten(taken + [x]) && InSequence(taken + [x])
  {
    FlattenAppend(taken, [x]);
    assert Flatten([x]) == x.buf + Flatten([]);
  }

  /** Under well-numbered arrivals, an entry received or parked has the
      sequence number of no other. */
  lemma EarlierArrivals(arrivals: seq<Entry>, k: nat, heap: seq<Entry>, taken: seq<Entry>)
    requires k < |arrivals| && DistinctRange(arrivals)
    requires multiset(taken) + multiset(heap) == multiset(arrivals[..k])
    ensures forall e :: e in heap ==> e.sn != arrivals[k].sn
    ensures forall e :: e in taken ==> e.sn != arrivals[k].sn
  {
    forall e | e in heap || e in taken
      ensures e.sn != arrivals[k].sn
    {
      assert e in multiset(arrivals[..k]);
      var j :| 0 <= j < k && arrivals[..k][j] == e;
    }
  }

  /** An entry numbered like none of the taken ones is numbered past them. */
  lemma NotTaken(taken: seq<Entry>, x: Entry)
    requires InSequence(taken) && forall e :: e in taken ==> e.sn != x.sn
    ensures x.sn >= |taken|
  {
    var i := if x.sn < |taken| then x.sn else 0;
    if taken != [] {
      assert taken[i] in taken;
    }
  }

  /** The arrival is the next in sequence: it goes straight to the output. */
  lemma TakeArrival(arrivals: seq<Entry>, k: nat, heap: seq<Entry>, taken: seq<Entry>, cur: nat, output: seq<byte>)
    requires Between(arrivals, k, heap, taken, cur, output) && k < |arrivals| && arrivals[k].sn == cur
    ensures Between(arrivals, k + 1, heap, taken + [arrivals[k]], cur + 1, output + arrivals[k].buf)
  {
    var x := arrivals[k];
    TakeFacts(taken, x, output);
    assert arrivals[..k + 1] == arrivals[..k] + [x];
    if DistinctRange(arrivals) {
      EarlierArrivals(arrivals, k, heap, taken);
    }
  }

  /** The arrival is early: it is parked. */
  lemma ParkArrival(arrivals: seq<Entry>, k: nat, heap: seq<Entry>, taken: seq<Entry>, cur: nat, output: seq<byte>)
    requires Between(arrivals, k, heap, taken, cur, output) && k < |arrivals| && arrivals[k].sn != cur
    ensures Between(arrivals, k + 1, Insert(heap, arrivals[k]), taken, cur, output)
  {
    var x := arrivals[k];
    InsertSorted(heap, x);
    InsertMultiset(heap, x);
    assert arrivals[..k + 1] == arrivals[..k] + [x];
    if DistinctRange(arrivals) {
      EarlierArrivals(arrivals, k, heap, taken);
      InsertStrict(heap, x);
      InsertMembers(heap, x);
      NotTaken(taken, x);
    }
  }

  /** The smallest parked entry is the next in sequence: it goes to the
      output. */
  lemma TakeParked(arrivals: seq<Entry>, k: nat, heap: seq<Entry>, taken: seq<Entry>, cur: nat, output: seq<byte>)
    requires Between(arrivals, k, heap, taken, cur, output) && heap != [] && heap[0].sn == cur
    ensures Between(arrivals, k, heap[1..], taken + [heap[0]], cur + 1, output + heap[0].buf)
  {
    var x := heap[0];
    TakeFacts(taken, x, output);
    assert heap == [x] + heap[1..];
    if DistinctRange(arrivals) {
      forall e | e in heap[1..]
        ensures e.sn >= cur + 1
      {
        var j :| 0 <= j < |heap[1..]| && heap[1..][j] == e;
        assert heap[j + 1] == e;
      }
    }
  }

  /** Entries numbered 0 .. n - 1 in strictly increasing order, from `c`
      on, are numbered `c`, `c + 1`, ... */
  lemma {:induction false} StrictFill(h: seq<Entry>, c: nat)
    requires StrictSns(h) && (forall e :: e in h ==> c <= e.sn < c + |h|)
    ensures forall j :: 0 <= j < |h| ==> h[j].sn == c + j
  {
    if h != [] {
      var last := h[|h| - 1];
      assert last in h;
      var init := h[..|h| - 1];
      forall e | e in init
        ensures c <= e.sn < c + |init|
      {
        var j :| 0 <= j < |init| && init[j] == e;
        assert h[j] == e;
      }
      StrictFill(init, c);
      assert forall j :: 0 <= j < |init| ==> h[j] == init[j];
      if |h| > 1 {
        assert h[|h| - 2].sn < last.sn;
      }
    }
  }

  /** The drained heap, after the taken entries, puts well-numbered arrivals
      in sequence. */
  lemma FinalOrder(arrivals: seq<Entry>, heap: seq<Entry>, taken: seq<Entry>, cur: nat, output: seq<byte>)
    requires Between(arrivals, |arrivals|, heap, taken, cur, output) && DistinctRange(arrivals)
    ensures InSequence(taken + heap) && Sorted(taken + heap)
  {
    var order := taken + heap;
    assert arrivals[..|arrivals|] == arrivals;
    assert |order| == |multiset(order)| == |arrivals|;
    forall e | e in heap
      ensures cur <= e.sn < cur + |heap|
    {
      assert e in multiset(arrivals);
      var j :| 0 <= j < |arrivals| && arrivals[j] == e;
    }
    StrictFill(heap, cur);
    assert forall i :: cur <= i < |order| ==> order[i] == heap[i - cur];
  }

  /** Once every arrival is received, the taken entries followed by the
      heap in order are a permutation of the arrivals, the output so far is
      their first part, and for well-numbered arrivals they are in sequence
      and in key order. */
  lemma FinalFacts(arrivals: seq<Entry>, heap: seq<Entry>, taken: seq<Entry>, cur: nat, output: seq<byte>)
    requires Between(arrivals, |arrivals|, heap, taken, cur, output)
    ensures multiset(taken + heap) == multiset(arrivals)
    ensures output + Flatten(heap) == Flatten(taken + heap)
    ensures DistinctRange(arrivals) ==> InSequence(taken + heap) && taken + heap == Sort(arrivals)
  {
    FlattenAppend(taken, heap);
    assert arrivals[..|arrivals|] == arrivals;
    if DistinctRange(arrivals) {
      FinalOrder(arrivals, heap, taken, cur, output);
      SortFacts(arrivals);
      SortedUnique(taken + heap, Sort(arrivals));
    }
  }

  /** `while let Some(Reverse((i, b))) = out_of_order.pop()`: move parked
      entries to the output while the smallest one is the next in sequence;
      push the first that is not back and stop. */
  method CatchUp(ghost arrivals: seq<Entry>, ghost k: nat, heap: seq<Entry>, ghost taken: seq<Entry>, cur: nat, output: seq<byte>)
    returns (heap': seq<Entry>, ghost taken': seq<Entry>, cur': nat, output': seq<byte>)
    requires Between(arrivals, k, heap, taken, cur, output)
    ensures Between(arrivals, k, heap', taken', cur', output')
    ensures heap' == [] || heap'[0].sn != cur'
  {
    heap', taken', cur', output' := heap, taken, cur, output;
    while heap' != []
      invariant Between(arrivals, k, heap', taken', cur', output')
      decreases |heap'|
    {
      var e := heap'[0];
      if e.sn == cur' {
        TakeParked(arrivals, k, heap', taken', cur', output');
        heap' := heap'[1..];
        taken' := taken' + [e];
        cur' := cur' + 1;
        output' := output' + e.buf;
        continue;
      }
      InsertMin(heap');
      heap' := Insert(heap'[1..], e);
      return;
    }
  }

  /** The final `while let Some(..) = out_of_order.pop()`: append every
      parked entry, smallest first. */
  method Drain(heap: seq<Entry>, output: seq<byte>) returns (output': seq<byte>)
    ensures output' == output + Flatten(heap)
  {
    output' := output;
    var h := heap;
    while h != []
      invariant output' + Flatten(h) == output + Flatten(heap)
      decreases |h|
    {
      var e := h[0];
      h := h[1..];
      output' := output' + e.buf;
    }
    assert output' + [] == output';
  }

  /** One turn of `while sequences > 0`: the arrival `k` goes straight to
      the output when it is the next in sequence; otherwise it is parked and
      the heap is caught up. */
  method Receive(arrivals: seq<Entry>, k: nat, heap: seq<Entry>, ghost taken: seq<Entry>, cur: nat, output: seq<byte>)
    returns (heap': seq<Entry>, ghost taken': seq<Entry>, cur': nat, output': seq<byte>)
    requires Between(arrivals, k, heap, taken, cur, output) && k < |arrivals|
    ensures Between(arrivals, k + 1, heap', taken', cur', output')
  {
    var x := arrivals[k];
    if cur == x.sn {
      TakeArrival(arrivals, k, heap, taken, cur, output);
      heap', taken', cur', output' := heap, taken + [x], cur + 1, output + x.buf;
    } else {
      ParkArrival(arrivals, k, heap, taken, cur, output);
      heap', taken', cur', output' := CatchUp(arrivals, k + 1, Insert(heap, x), taken, cur, output);
    }
  }

  /** The number of bytes the entries carry. */
  function TotalSize(es: seq<Entry>): nat
  {
    if es == [] then 0 else |es[0].buf| + TotalSize(es[1..])
  }

  lemma {:induction false} FlattenSize(es: seq<Entry>)
    ensures |Flatten(es)| == TotalSize(es)
  {
    if es != [] {
      FlattenSize(es[1..]);
    }
  }

  /** Taking entry `i` out of a list leaves the others' bytes. */
  lemma {:induction false} TotalSizeRemove(es: seq<Entry>, i: nat)
    requires i < |es|
    ensures TotalSize(es) == |es[i].buf| + TotalSize(es[..i] + es[i + 1..])
  {
    if i == 0 {
      assert es[..0] + es[1..] == es[1..];
    } else {
      var rest := es[..i] + es[i + 1..];
      assert rest[0] == es[0];
      assert rest[1..] == es[1..][..i - 1] + es[1..][i..];
      TotalSizeRemove(es[1..], i - 1);
    }
  }

  /** Any two orders of the same entries carry the same number of bytes. */
  lemma {:induction false} TotalSizePermutation(a: seq<Entry>, b: seq<Entry>)
    requires multiset(a) == multiset(b)
    ensures TotalSize(a) == TotalSize(b)
    decreases |a|
  {
    if a != [] {
      assert a[0] in multiset(b);
      var i :| 0 <= i < |b| && b[i] == a[0];
      var rest := b[..i] + b[i + 1..];
      assert b == b[..i] + [b[i]] + b[i + 1..];
      assert a == [a[0]] + a[1..];
      calc {
        multiset(a[1..]) + multiset{a[0]};
        multiset(a);
        multiset(b);
        multiset(b[..i]) + multiset{b[i]} + multiset(b[i + 1..]);
        multiset(rest) + multiset{a[0]};
      }
      assert multiset(a[1..]) == multiset(a[1..]) + multiset{a[0]} - multiset{a[0]}
                              == multiset(rest) + multiset{a[0]} - multiset{a[0]}
                              == multiset(rest);
      TotalSizePermutation(a[1..], rest);
      TotalSizeRemove(b, i);
    }
  }

  /** The root's receive loop and final drain over the results in the order
      they arrive. `order` is the order the results reach the output in:
      always a permutation of the arrivals; for well-numbered arrivals, the
      sequence order, which is the heap-key order. */
  method Reorder(arrivals: seq<Entry>) returns (output: seq<byte>, ghost order: seq<Entry>)
    ensures multiset(order) == multiset(arrivals) && output == Flatten(order)
    ensures DistinctRange(arrivals) ==> InSequence(order)
    ensures |output| == TotalSize(arrivals)
    ensures DistinctRange(arrivals) ==> output == Flatten(Sort(arrivals))
  {
    output := [];
    var outOfOrder: seq<Entry> := [];
    var curOrder := 0;
    ghost var taken: seq<Entry> := [];
    var k := 0;
    while k < |arrivals|
      invariant Between(arrivals, k, outOfOrder, taken, curOrder, output)
      decreases |arrivals| - k
    {
      outOfOrder, taken, curOrder, output := Receive(arrivals, k, outOfOrder, taken, curOrder, output);
      k := k + 1;
    }
    order := taken + outOfOrder;
    FinalFacts(arrivals, outOfOrder, taken, curOrder, output);
    output := Drain(outOfOrder, output);
    FlattenSize(order);
    TotalSizePermutation(order, arrivals);
  }

  /** Results that come back for pieces numbered in sequence, in whatever
      order they arrive, sort back to the pieces. */
  lemma SortRestores(pieces: seq<Entry>, arrivals: seq<Entry>)
    requires InSequence(pieces) && multiset(arrivals) == multiset(pieces)
    ensures Sort(arrivals) == pieces
  {
    SortFacts(arrivals);
    forall i, j | 0 <= i < j < |pieces|
      ensures KeyLe(pieces[i], pieces[j])
    {
    }
    SortedUnique(Sort(arrivals), pieces);
  }

  // ---------------------------------------------------------------------
  // From the sends to the output.

  /** The results of workers that hand every piece back unchanged. */
  function Echoes(ms: seq<Message>): seq<Entry>
  {
    if ms == [] then [] else (if ms[0].Data? then [Entry(ms[0].sn, ms[0].bytes)] else []) + Echoes(ms[1..])
  }

  /** The echoed pieces are numbered in sequence from `k` and hold the
      bytes that were sent. */
  lemma {:induction false} EchoesOfSends(input: seq<byte>, spans: seq<Span>, threads: nat, k: nat)
    requires threads >= 2 && ValidSpans(spans, |input|)
    ensures var e := Echoes(DataSends(input, spans, threads, k));
            |e| == |spans| && (forall i :: 0 <= i < |e| ==> e[i].sn == k + i) &&
            Flatten(e) == Payload(DataSends(input, spans, threads, k))
  {
    if spans != [] {
      var d := DataSends(input, spans, threads, k);
      assert d[1..] == DataSends(input, spans[1..], threads, k + 1);
      EchoesOfSends(input, spans[1..], threads, k + 1);
      var e := Echoes(d);
      assert e == [Entry(k, d[0].bytes)] + Echoes(d[1..]);
      assert e[1..] == Echoes(d[1..]);
    }
  }

  /** Whatever order the echoed pieces of the compressor come back in, the
      root's sorted output is the input again. */
  lemma CompressRoundTrip(input: seq<byte>, threads: nat, arrivals: seq<Entry>)
    requires threads >= 2
    requires multiset(arrivals) == multiset(Echoes(DataSends(input, Chunks(0, |input|), threads, 0)))
    ensures Flatten(Sort(arrivals)) == input
  {
    EchoesOfSends(input, Chunks(0, |input|), threads, 0);
    SortRestores(Echoes(DataSends(input, Chunks(0, |input|), threads, 0)), arrivals);
    ChunksCover(input, threads);
  }

  /** The same for the decompressor's blocks. */
  lemma DecompressRoundTrip(input: seq<byte>, threads: nat, arrivals: seq<Entry>)
    requires threads >= 2 && (|input| == 0 || |input| >= 10)
    requires multiset(arrivals) == multiset(Echoes(DataSends(input, Blocks(input, 0), threads, 0)))
    ensures Flatten(Sort(arrivals)) == input
  {
    EchoesOfSends(input, Blocks(input, 0), threads, 0);
    SortRestores(Echoes(DataSends(input, Blocks(input, 0), threads, 0)), arrivals);
    BlocksCover(input, threads);
  }
}
