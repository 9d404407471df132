/** Full-load snapshots: one envelope per type, or a stream of fixed-size batches whose last batch
    tells the collector to deactivate what it has not seen. */
module DiscoverySnapshot {
  import opened Options

  datatype Envelope<T> = Envelope(data: seq<T>, sequence: nat, total: nat, first: bool, last: bool)

  /** A cached object with the converter of the handler it came from. */
  datatype Raw<!R, T> = Raw(cached: R, convert: R -> Option<T>)

  datatype Handler<!R, T> = Handler(typ: string, cache: seq<R>, convert: R -> Option<T>)

  /** The items the converters keep, in order. */
  function Converted<R, T>(raws: seq<Raw<R, T>>): (out: seq<T>)
    ensures |out| <= |raws|
  {
    if raws == [] then []
    else
      var init := Converted(raws[..|raws| - 1]);
      match raws[|raws| - 1].convert(raws[|raws| - 1].cached)
      case None => init
      case Some(item) => init + [item]
  }

  function Data<T>(sent: seq<Envelope<T>>): seq<T> {
    if sent == [] then [] else Data(sent[..|sent| - 1]) + sent[|sent| - 1].data
  }

  // ---------------------------------------------------------------- what is on the wire

  /** The advertised number of batches. */
  function TotalBatches(raws: nat, batchSize: nat): nat
    requires batchSize >= 1
  {
    var t := (raws + batchSize - 1) / batchSize;
    if t == 0 then 1 else t
  }

  /** Envelope number `k`, counted from 0, of a stream that advertises `total`. */
  predicate Numbered<T>(e: Envelope<T>, k: nat, total: nat) {
    e.sequence == k + 1 && e.first == (k == 0) && e.total == total
  }

  /** Batches before the final one: full, delivered, and none marked last. */
  ghost predicate Full<T>(sent: seq<Envelope<T>>, batchSize: nat, total: nat, fails: nat -> bool) {
    forall k :: 0 <= k < |sent| ==>
      Numbered(sent[k], k, total) && !sent[k].last && |sent[k].data| == batchSize && !fails(k)
  }

  lemma FullAppend<T>(sent: seq<Envelope<T>>, e: Envelope<T>, batchSize: nat, total: nat, fails: nat -> bool)
    requires Full(sent, batchSize, total, fails)
    requires Numbered(e, |sent|, total) && !e.last && |e.data| == batchSize && !fails(|sent|)
    ensures Full(sent + [e], batchSize, total, fails)
  {
  }

  /** `sent` is a possible stream of posts for `items`: numbered from 1, full batches before the
      final one, nothing posted after a failure, and only the final batch marked last. */
  ghost predicate Stream<T>(sent: seq<Envelope<T>>, items: seq<T>, batchSize: nat, total: nat, fails: nat -> bool) {
    && sent != []
    && |sent| <= total
    && Full(sent[..|sent| - 1], batchSize, total, fails)
    && (var end := sent[|sent| - 1];
        && Numbered(end, |sent| - 1, total) && |end.data| <= batchSize
        && (end.last ==> Data(sent) == items)
        && (!end.last ==> fails(|sent| - 1) && |end.data| == batchSize && Data(sent) <= items))
  }

  /** The chunk, the counter and the first error, as the flush closure updates them. */
  class Emitter<T> {
    const total: nat
    /** Whether post number `n`, counted from 0, fails. */
    const fails: nat -> bool
    var chunk: seq<T>
    var sent: seq<Envelope<T>>
    var failed: bool

    constructor (total: nat, fails: nat -> bool)
      ensures this.total == total && this.fails == fails && chunk == [] && sent == [] && !failed
    {
      this.total, this.fails := total, fails;
      chunk, sent, failed := [], [], false;
    }

    method Flush(last: bool)
      modifies this
      ensures sent == old(sent) + [Envelope(old(chunk), |old(sent)| + 1, total, old(sent) == [], last)]
      ensures chunk == [] && failed == (old(failed) || fails(|old(sent)|))
    {
      var env := Envelope(chunk, |sent| + 1, total, |sent| == 0, last);
      failed := failed || fails(|sent|);
      sent := sent + [env];
      chunk := [];
    }
  }

  lemma DataAppend<T>(sent: seq<Envelope<T>>, e: Envelope<T>)
    ensures Data(sent + [e]) == Data(sent) + e.data
  {
    assert (sent + [e])[..|sent|] == sent;
  }

  lemma {:induction false} FullBatches<T>(sent: seq<Envelope<T>>, batchSize: nat)
    requires forall k :: 0 <= k < |sent| ==> |sent[k].data| == batchSize
    ensures |Data(sent)| == |sent| * batchSize
  {
    if sent != [] {
      FullBatches(sent[..|sent| - 1], batchSize);
      assert |sent| * batchSize == (|sent| - 1) * batchSize + batchSize;
    }
  }

  /** `k` full batches inside the first `n - 1` objects leave room for one more below the total. */
  lemma RoomForOneMore(k: nat, batchSize: nat, n: nat)
    requires batchSize >= 1 && (k > 0 ==> k * batchSize <= n - 1)
    ensures k + 1 <= TotalBatches(n, batchSize)
  {
    if k > 0 {
      var t := (n + batchSize - 1) / batchSize;
      assert n + batchSize - 1 < (t + 1) * batchSize && (k + 1) * batchSize == k * batchSize + batchSize;
      if t < k + 1 { MulMonotone(t + 1, k + 1, batchSize); }
    }
  }

  /** The advertised number is the number of batches that the objects fill, and one when there are none. */
  lemma TotalIsExact(n: nat, batchSize: nat)
    requires batchSize >= 1
    ensures var t := TotalBatches(n, batchSize);
            if n == 0 then t == 1 else (t - 1) * batchSize < n <= t * batchSize
  {
    var t := (n + batchSize - 1) / batchSize;
    DivBounds(n + batchSize - 1, batchSize, t);
    if n > 0 { OneLess(t, batchSize, n); }
  }

  lemma DivBounds(x: nat, b: nat, t: nat)
    requires b >= 1 && t == x / b
    ensures t * b <= x < t * b + b
  {
  }

  lemma OneLess(t: nat, b: nat, n: nat)
    requires b >= 1 && n > 0 && t * b <= n + b - 1 < t * b + b
    ensures t >= 1 && (t - 1) * b < n <= t * b
  {
    assert (t - 1) * b == t * b - b;
  }

  lemma {:induction false} SmallBatches<T>(sent: seq<Envelope<T>>, batchSize: nat)
    requires forall k :: 0 <= k < |sent| ==> |sent[k].data| <= batchSize
    ensures |Data(sent)| <= |sent| * batchSize
  {
    if sent != [] {
      SmallBatches(sent[..|sent| - 1], batchSize);
      assert |sent| * batchSize == (|sent| - 1) * batchSize + batchSize;
    }
  }

  /** A stream that reached its end and from which no object was left out has as many batches as advertised. */
  lemma TotalIsReached<T>(sent: seq<Envelope<T>>, items: seq<T>, n: nat, batchSize: nat, fails: nat -> bool)
    requires batchSize >= 1 && Stream(sent, items, batchSize, TotalBatches(n, batchSize), fails)
    requires sent[|sent| - 1].last && |items| == n
    ensures |sent| == TotalBatches(n, batchSize)
  {
    var k, t := |sent| - 1, TotalBatches(n, batchSize);
    assert forall i :: 0 <= i < k ==> sent[..k][i] == sent[i];
    SmallBatches(sent, batchSize);
    TotalIsExact(n, batchSize);
    if |sent| < t { MulMonotone(|sent|, t - 1, batchSize); }
  }

  lemma MulMonotone(a: nat, b: nat, c: nat)
    requires a <= b
    ensures a * c <= b * c
  {
  }

  /** The loop's state after the first `i` objects: full, unfailed batches sent, the rest pending. */
  ghost predicate Chunking<R, T>(raws: seq<Raw<R, T>>, i: nat, batchSize: nat, fails: nat -> bool,
                                 sent: seq<Envelope<T>>, chunk: seq<T>, total: nat) {
    && i <= |raws|
    && Data(sent) + chunk == Converted(raws[..i])
    && |chunk| <= batchSize && (|chunk| == batchSize ==> i == |raws|)
    && (sent != [] ==> |Data(sent)| <= |raws| - 1)
    && Full(sent, batchSize, total, fails)
  }

  lemma {:induction false} ConvertedPrefix<R, T>(raws: seq<Raw<R, T>>, i: nat)
    requires i <= |raws|
    ensures Converted(raws[..i]) <= Converted(raws)
    decreases |raws| - i
  {
    if i == |raws| {
      assert raws[..i] == raws;
    } else {
      assert raws[..i + 1][..i] == raws[..i];
      ConvertedPrefix(raws, i + 1);
    }
  }

  /** Full batches followed by one more envelope are a stream. */
  lemma WithEnd<T>(sent: seq<Envelope<T>>, e: Envelope<T>, items: seq<T>, batchSize: nat, total: nat,
                   fails: nat -> bool)
    requires Full(sent, batchSize, total, fails) && |sent| < total
    requires Numbered(e, |sent|, total) && |e.data| <= batchSize
    requires e.last ==> Data(sent) + e.data == items
    requires !e.last ==> fails(|sent|) && |e.data| == batchSize && Data(sent) + e.data <= items
    ensures Stream(sent + [e], items, batchSize, total, fails)
  {
    DataAppend(sent, e);
    assert (sent + [e])[..|sent|] == sent;
  }

  lemma Room<R, T>(raws: seq<Raw<R, T>>, sent: seq<Envelope<T>>, batchSize: nat)
    requires batchSize >= 1 && (sent != [] ==> |Data(sent)| <= |raws| - 1)
    requires forall k :: 0 <= k < |sent| ==> |sent[k].data| == batchSize
    ensures |sent| + 1 <= TotalBatches(|raws|, batchSize)
  {
    FullBatches(sent, batchSize);
    RoomForOneMore(|sent|, batchSize, |raws|);
  }

  lemma FinalStream<R, T>(raws: seq<Raw<R, T>>, batchSize: nat, fails: nat -> bool,
                          sent: seq<Envelope<T>>, chunk: seq<T>, total: nat)
    requires batchSize >= 1 && total == TotalBatches(|raws|, batchSize)
    requires Chunking(raws, |raws|, batchSize, fails, sent, chunk, total)
    ensures Stream(sent + [Envelope(chunk, |sent| + 1, total, sent == [], true)], Converted(raws), batchSize, total,
                   fails)
  {
    Room(raws, sent, batchSize);
    assert raws[..|raws|] == raws;
    WithEnd(sent, Envelope(chunk, |sent| + 1, total, sent == [], true), Converted(raws), batchSize, total, fails);
  }

  /** One turn of the loop that keeps its item: the batch is posted when it is full and more objects
      follow. */
  method AddItem<R, T>(em: Emitter<T>, ghost raws: seq<Raw<R, T>>, i: nat, n: nat, batchSize: nat, item: T)
    requires i < |raws| == n && raws[i].convert(raws[i].cached) == Some(item)
    requires batchSize >= 1 && em.total == TotalBatches(|raws|, batchSize) && !em.failed
    requires Chunking(raws, i, batchSize, em.fails, em.sent, em.chunk, em.total)
    modifies em
    ensures !em.failed ==> Chunking(raws, i + 1, batchSize, em.fails, em.sent, em.chunk, em.total)
    ensures em.failed ==> Stream(em.sent, Converted(raws), batchSize, em.total, em.fails) && em.fails(|em.sent| - 1)
  {
    ghost var sent0, chunk0 := em.sent, em.chunk;
    em.chunk := em.chunk + [item];
    if |em.chunk| >= batchSize && i < n - 1 {
      em.Flush(false);
      if em.failed {
        StoppedStream(raws, i, batchSize, em.fails, sent0, chunk0, em.total, item);
      } else {
        ChunkFlush(raws, i, batchSize, em.fails, sent0, chunk0, em.total, item);
      }
    } else {
      ChunkAdd(raws, i, batchSize, em.fails, sent0, chunk0, em.total, item);
    }
  }

  /** `sent` is a stream for the items the converters keep, in batches of the configured size. */
  ghost predicate Batched<R, T>(raws: seq<Raw<R, T>>, configured: int, sent: seq<Envelope<T>>, fails: nat -> bool) {
    Stream(sent, Converted(raws), BatchSize(configured), TotalBatches(|raws|, BatchSize(configured)), fails)
  }

  /** The loop over the objects, with a batch size. A failed post stops the stream before its last batch. */
  method EmitInBatches<R, T>(raws: seq<Raw<R, T>>, batchSize: nat, fails: nat -> bool)
    returns (sent: seq<Envelope<T>>, failed: bool)
    requires batchSize >= 1
    ensures Stream(sent, Converted(raws), batchSize, TotalBatches(|raws|, batchSize), fails)
    ensures sent != [] && (failed <==> fails(|sent| - 1))
    ensures !failed ==> Data(sent) == Converted(raws) && sent[|sent| - 1].last
  {
    var em := new Emitter<T>(TotalBatches(|raws|, batchSize), fails);
    for i := 0 to |raws|
      invariant !em.failed && Chunking(raws, i, batchSize, fails, em.sent, em.chunk, em.total)
    {
      var item := raws[i].convert(raws[i].cached);
      if item.None? {
        ChunkSkip(raws, i, batchSize, fails, em.sent, em.chunk, em.total);
        continue;
      }
      AddItem(em, raws, i, |raws|, batchSize, item.value);
      if em.failed {
        return em.sent, true;
      }
    }
    FinalStream(raws, batchSize, fails, em.sent, em.chunk, em.total);
    em.Flush(true);
    return em.sent, em.failed;
  }

  /** Posts one type's snapshot in batches of the configured size, by default 1000. */
  method EmitTypeBatched<R, T>(raws: seq<Raw<R, T>>, configured: int, fails: nat -> bool)
    returns (sent: seq<Envelope<T>>, failed: bool)
    ensures Batched(raws, configured, sent, fails)
    ensures forall k :: 0 <= k < |sent| - 1 ==> |sent[k].data| == if configured > 0 then configured else 1000
    ensures sent != [] && (failed <==> fails(|sent| - 1))
    ensures !failed ==> Data(sent) == Converted(raws) && sent[|sent| - 1].last
  {
    sent, failed := EmitInBatches(raws, BatchSize(configured), fails);
    assert forall k :: 0 <= k < |sent| - 1 ==> sent[..|sent| - 1][k] == sent[k];
  }

  lemma ConvertedStep<R, T>(raws: seq<Raw<R, T>>, i: nat)
    requires i < |raws|
    ensures var item := raws[i].convert(raws[i].cached);
            Converted(raws[..i + 1]) == Converted(raws[..i]) + (if item.Some? then [item.value] else [])
  {
    assert raws[..i + 1][..i] == raws[..i];
  }

  lemma ChunkSkip<R, T>(raws: seq<Raw<R, T>>, i: nat, batchSize: nat, fails: nat -> bool,
                        sent: seq<Envelope<T>>, chunk: seq<T>, total: nat)
    requires i < |raws| && raws[i].convert(raws[i].cached).None?
    requires Chunking(raws, i, batchSize, fails, sent, chunk, total)
    ensures Chunking(raws, i + 1, batchSize, fails, sent, chunk, total)
  {
    ConvertedStep(raws, i);
  }

  lemma ChunkAdd<R, T>(raws: seq<Raw<R, T>>, i: nat, batchSize: nat, fails: nat -> bool,
                       sent: seq<Envelope<T>>, chunk: seq<T>, total: nat, item: T)
    requires i < |raws| && raws[i].convert(raws[i].cached) == Some(item)
    requires Chunking(raws, i, batchSize, fails, sent, chunk, total)
    requires |chunk| + 1 < batchSize || i == |raws| - 1
    ensures Chunking(raws, i + 1, batchSize, fails, sent, chunk + [item], total)
  {
    ConvertedStep(raws, i);
    Regroup(Data(sent), chunk, item);
  }

  lemma ChunkFlush<R, T>(raws: seq<Raw<R, T>>, i: nat, batchSize: nat, fails: nat -> bool,
                         sent: seq<Envelope<T>>, chunk: seq<T>, total: nat, item: T)
    requires i < |raws| - 1 && raws[i].convert(raws[i].cached) == Some(item) && |chunk| + 1 == batchSize
    requires Chunking(raws, i, batchSize, fails, sent, chunk, total) && !fails(|sent|)
    ensures Chunking(raws, i + 1, batchSize, fails,
                     sent + [Envelope(chunk + [item], |sent| + 1, total, sent == [], false)], [], total)
  {
    var e := Envelope(chunk + [item], |sent| + 1, total, sent == [], false);
    ConvertedStep(raws, i);
    DataAppend(sent, e);
    Regroup(Data(sent), chunk, item);
    FullAppend(sent, e, batchSize, total, fails);
  }

  lemma Regroup<T>(a: seq<T>, b: seq<T>, x: T)
    ensures a + (b + [x]) == (a + b) + [x] && (a + (b + [x])) + [] == (a + b) + [x]
  {
  }

  lemma StoppedStream<R, T>(raws: seq<Raw<R, T>>, i: nat, batchSize: nat, fails: nat -> bool,
                            sent: seq<Envelope<T>>, chunk: seq<T>, total: nat, item: T)
    requires batchSize >= 1 && total == TotalBatches(|raws|, batchSize)
    requires i < |raws| - 1 && raws[i].convert(raws[i].cached) == Some(item) && |chunk| + 1 == batchSize
    requires Chunking(raws, i, batchSize, fails, sent, chunk, total) && fails(|sent|)
    ensures Stream(sent + [Envelope(chunk + [item], |sent| + 1, total, sent == [], false)], Converted(raws), batchSize,
                   total, fails)
  {
    ConvertedStep(raws, i);
    Regroup(Data(sent), chunk, item);
    ConvertedPrefix(raws, i + 1);
    Room(raws, sent, batchSize);
    WithEnd(sent, Envelope(chunk + [item], |sent| + 1, total, sent == [], false), Converted(raws), batchSize, total,
            fails);
  }

  // ---------------------------------------------------------------- the collector

  /** The collector upserts what it receives; on a last batch it deactivates what the stream since
      the last first batch did not contain. */
  datatype Collector<!T> = Collector(active: set<T>, seen: set<T>)

  function Elements<T>(s: seq<T>): set<T> {
    set x | x in s
  }

  function Receive<T>(c: Collector<T>, e: Envelope<T>): Collector<T> {
    var seen := (if e.first then {} else c.seen) + Elements(e.data);
    Collector(if e.last then seen else c.active + Elements(e.data), seen)
  }

  /** The collector after the posts; post `i` arrived when `arrived(i)`. */
  function Collect<T>(c: Collector<T>, sent: seq<Envelope<T>>, arrived: nat -> bool): Collector<T> {
    if sent == [] then c
    else
      var before := Collect(c, sent[..|sent| - 1], arrived);
      if arrived(|sent| - 1) then Receive(before, sent[|sent| - 1]) else before
  }

  lemma {:induction false} CollectFull<T>(c: Collector<T>, sent: seq<Envelope<T>>, arrived: nat -> bool)
    requires forall i :: 0 <= i < |sent| ==> arrived(i) && !sent[i].last && sent[i].first == (i == 0)
    ensures Collect(c, sent, arrived).active == c.active + Elements(Data(sent))
    ensures sent != [] ==> Collect(c, sent, arrived).seen == Elements(Data(sent))
  {
    if sent != [] {
      CollectFull(c, sent[..|sent| - 1], arrived);
    }
  }

  /** Whatever posts fail, and whether or not failed posts arrived: no item of the snapshot is ever
      deactivated, and a reconciliation leaves exactly the items of the snapshot active. */
  lemma CollectorIsSafe<T>(c: Collector<T>, sent: seq<Envelope<T>>, items: seq<T>, batchSize: nat, total: nat,
                           fails: nat -> bool, arrived: nat -> bool)
    requires Stream(sent, items, batchSize, total, fails)
    requires forall i :: 0 <= i < |sent| && !fails(i) ==> arrived(i)
    ensures var end := Collect(c, sent, arrived);
            && (forall x :: x in c.active && x in items ==> x in end.active)
            && (sent[|sent| - 1].last && arrived(|sent| - 1) ==> end.active == Elements(items))
            && (!(sent[|sent| - 1].last && arrived(|sent| - 1)) ==> c.active <= end.active)
  {
    var k := |sent| - 1;
    assert forall i :: 0 <= i < k ==> sent[..k][i] == sent[i];
    CollectFull(c, sent[..k], arrived);
    assert Data(sent) == Data(sent[..k]) + sent[k].data;
    assert Elements(Data(sent)) == Elements(Data(sent[..k])) + Elements(sent[k].data);
    if k == 0 { assert sent[..k] == []; }
  }

  // ---------------------------------------------------------------- one envelope per type

  function RawsOf<R, T>(h: Handler<R, T>): seq<Raw<R, T>> {
    seq(|h.cache|, i requires 0 <= i < |h.cache| => Raw(h.cache[i], h.convert))
  }

  /** The cached objects of every handler of one type, in registration order. */
  function Flatten<R, T>(handlers: seq<Handler<R, T>>, typ: string): seq<Raw<R, T>> {
    if handlers == [] then []
    else
      var init := Flatten(handlers[..|handlers| - 1], typ);
      var h := handlers[|handlers| - 1];
      if h.typ == typ then init + RawsOf(h) else init
  }

  lemma {:induction false} ConvertedConcat<R, T>(a: seq<Raw<R, T>>, b: seq<Raw<R, T>>)
    ensures Converted(a + b) == Converted(a) + Converted(b)
    decreases |b|
  {
    if b == [] {
      assert a + b == a;
    } else {
      var k := |b| - 1;
      assert (a + b)[..|a| + k] == a + b[..k];
      ConvertedConcat(a, b[..k]);
    }
  }

  lemma {:induction false} ConvertedHas<R, T>(raws: seq<Raw<R, T>>, x: T)
    ensures x in Converted(raws) <==> exists i :: 0 <= i < |raws| && raws[i].convert(raws[i].cached) == Some(x)
  {
    if raws != [] {
      var n := |raws| - 1;
      ConvertedHas(raws[..n], x);
      assert forall i :: 0 <= i < n ==> raws[..n][i] == raws[i];
    }
  }

  lemma {:induction false} FlattenHas<R, T>(handlers: seq<Handler<R, T>>, typ: string, raw: Raw<R, T>)
    ensures raw in Flatten(handlers, typ) <==>
            exists i, j :: 0 <= i < |handlers| && handlers[i].typ == typ && 0 <= j < |handlers[i].cache|
                           && raw == Raw(handlers[i].cache[j], handlers[i].convert)
  {
    if handlers != [] {
      var n := |handlers| - 1;
      FlattenHas(handlers[..n], typ, raw);
      assert forall i :: 0 <= i < n ==> handlers[..n][i] == handlers[i];
      assert raw in RawsOf(handlers[n]) <==>
             exists j :: 0 <= j < |handlers[n].cache| && raw == Raw(handlers[n].cache[j], handlers[n].convert) by {
        if j :| 0 <= j < |handlers[n].cache| && raw == Raw(handlers[n].cache[j], handlers[n].convert) {
          assert RawsOf(handlers[n])[j] == raw;
        }
      }
    }
  }

  function ListOf<T>(byType: map<string, seq<T>>, typ: string): seq<T> {
    if typ in byType then byType[typ] else []
  }

  /** Converts one handler's objects onto the list of its type. */
  method AddHandler<R, T>(was: map<string, seq<T>>, h: Handler<R, T>) returns (byType: map<string, seq<T>>)
    ensures ListOf(byType, h.typ) == ListOf(was, h.typ) + Converted(RawsOf(h))
    ensures forall typ: string :: typ != h.typ ==> ListOf(byType, typ) == ListOf(was, typ)
    ensures (forall typ: string :: typ in was ==> was[typ] != []) ==>
              forall typ: string :: typ in byType ==> byType[typ] != []
  {
    byType := was;
    ghost var raws := RawsOf(h);
    for j := 0 to |h.cache|
      invariant ListOf(byType, h.typ) == ListOf(was, h.typ) + Converted(raws[..j])
      invariant byType - {h.typ} == was - {h.typ}
      invariant h.typ in byType ==> byType[h.typ] != [] || (h.typ in was && was[h.typ] == [])
    {
      ConvertedStep(raws, j);
      var item := h.convert(h.cache[j]);
      if item.Some? {
        byType := byType[h.typ := ListOf(byType, h.typ) + [item.value]];
      }
    }
    assert raws[..|h.cache|] == raws;
    forall typ: string | typ != h.typ
      ensures (typ in byType <==> typ in was) && ListOf(byType, typ) == ListOf(was, typ)
    {
      assert typ in byType - {h.typ} <==> typ in was - {h.typ};
      assert typ in byType ==> (byType - {h.typ})[typ] == (was - {h.typ})[typ];
    }
  }

  /** The unbatched path: converts everything and groups it by type. The list it sends for a type is
      the one the batches of that type concatenate to; a type without items is not sent. */
  method EmitSingle<R, T>(handlers: seq<Handler<R, T>>) returns (byType: map<string, seq<T>>)
    ensures forall typ: string :: ListOf(byType, typ) == Converted(Flatten(handlers, typ))
    ensures forall typ: string :: typ in byType ==> byType[typ] != []
  {
    byType := map[];
    for i := 0 to |handlers|
      invariant forall typ: string :: ListOf(byType, typ) == Converted(Flatten(handlers[..i], typ))
      invariant forall typ: string :: typ in byType ==> byType[typ] != []
    {
      ghost var was := byType;
      byType := AddHandler(byType, handlers[i]);
      forall typ: string
        ensures ListOf(byType, typ) == Converted(Flatten(handlers[..i + 1], typ))
      {
        FlattenStep(handlers, i, typ);
      }
    }
    assert handlers[..|handlers|] == handlers;
  }

  lemma FlattenStep<R, T>(handlers: seq<Handler<R, T>>, i: nat, typ: string)
    requires i < |handlers|
    ensures Converted(Flatten(handlers[..i + 1], typ)) ==
            Converted(Flatten(handlers[..i], typ))
            + (if handlers[i].typ == typ then Converted(RawsOf(handlers[i])) else [])
  {
    assert handlers[..i + 1][..i] == handlers[..i];
    ConvertedConcat(Flatten(handlers[..i], typ), RawsOf(handlers[i]));
  }

  function BatchSize(configured: int): nat {
    if configured <= 0 then 1000 else configured
  }

  /** What the batched path promises for one type. */
  ghost predicate TypeStream<R, T>(handlers: seq<Handler<R, T>>, typ: string, configured: int,
                                   sent: seq<Envelope<T>>, fails: nat -> bool) {
    var raws := Flatten(handlers, typ);
    && Batched(raws, configured, sent, fails)
    && (!fails(|sent| - 1) ==> Data(sent) == Converted(raws) && sent[|sent| - 1].last)
  }

  /** The registered types, each once, in the order in which they first appear. */
  method TypesInOrder<R, T>(handlers: seq<Handler<R, T>>) returns (order: seq<string>)
    ensures forall typ: string :: typ in order <==> exists i :: 0 <= i < |handlers| && handlers[i].typ == typ
    ensures forall j, k :: 0 <= j < k < |order| ==> order[j] != order[k]
  {
    order := [];
    for i := 0 to |handlers|
      invariant forall typ: string :: typ in order <==> exists k :: 0 <= k < i && handlers[k].typ == typ
      invariant forall j, k :: 0 <= j < k < |order| ==> order[j] != order[k]
    {
      if handlers[i].typ !in order {
        order := order + [handlers[i].typ];
      }
    }
  }

  method EmitType<R, T>(handlers: seq<Handler<R, T>>, typ: string, configured: int, fails: nat -> bool)
    returns (sent: seq<Envelope<T>>)
    ensures TypeStream(handlers, typ, configured, sent, fails)
  {
    var raws := Flatten(handlers, typ);
    var failed;
    sent, failed := EmitTypeBatched(raws, configured, fails);
  }

  /** The batched path: one stream per registered type, in registration order. With no failing post
      the batches of a type concatenate to the list the unbatched path sends for it. */
  method EmitBatched<R, T>(handlers: seq<Handler<R, T>>, configured: int, fails: string -> nat -> bool)
    returns (order: seq<string>, streams: seq<seq<Envelope<T>>>)
    ensures forall typ: string :: typ in order <==> exists i :: 0 <= i < |handlers| && handlers[i].typ == typ
    ensures forall j, k :: 0 <= j < k < |order| ==> order[j] != order[k]
    ensures |streams| == |order|
    ensures forall j :: 0 <= j < |order| ==> TypeStream(handlers, order[j], configured, streams[j], fails(order[j]))
  {
    order := TypesInOrder(handlers);
    streams := [];
    for j := 0 to |order|
      invariant |streams| == j
      invariant forall k :: 0 <= k < j ==> TypeStream(handlers, order[k], configured, streams[k], fails(order[k]))
    {
      var sent := EmitType(handlers, order[j], configured, fails(order[j]));
      streams := streams + [sent];
    }
  }
}
