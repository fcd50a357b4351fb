/** Indexing a document's chunks: embed every pending chunk, upsert the vectors in batches,
    then mark the chunks. Any run may fail or crash at any step and be started again.
 */
module Ingestion {
  import opened Numbers
  import opened Sequences
  import opened Wrappers

  const BATCH_SIZE: nat := 20

  datatype Status = Pending | Indexed

  datatype Chunk = Chunk(id: string, documentId: string, tenantId: string, index: int, content: string,
                         contentHash: string, status: Status, pointId: Option<string>, error: string)

  datatype Document = Document(id: string, sourceType: string, sourceUri: string, title: string)

  type Vector = seq<real>

  datatype Point = Point(id: string, vector: Vector, tenantId: string, documentId: string, chunkId: string,
                         chunkIndex: int, sourceType: string, sourceUri: string, title: string, contentHash: string)

  type Embedder = string -> Vector

  /** Where a run stops short. A failing upsert may still have stored any of its batch's points,
      a failing status update may still have been applied. */
  datatype Fault =
    | NoFault
    | DocumentReadFails
    | PendingReadFails
    | EmbedFails(at: nat)
    | UpsertFails(batch: nat, stored: set<string>)
    | MarkFails(at: nat, applied: bool)

  datatype Result = DocumentMissing | Failed | IndexedCount(count: nat)

  function PointOf(doc: Document, embed: Embedder, c: Chunk): Point {
    Point(c.id, embed(c.content), c.tenantId, c.documentId, c.id,
          c.index, doc.sourceType, doc.sourceUri, doc.title, c.contentHash)
  }

  function PointsOf(doc: Document, embed: Embedder, chunks: seq<Chunk>): seq<Point> {
    seq(|chunks|, i requires 0 <= i < |chunks| => PointOf(doc, embed, chunks[i]))
  }

  // ---------- the two stores ----------

  /** Upserting points one after the other; a later point replaces an earlier one of its id. */
  function Upserted(vectors: map<string, Point>, points: seq<Point>): map<string, Point> {
    if points == [] then vectors
    else
      var p := points[|points| - 1];
      Upserted(vectors, points[..|points| - 1])[p.id := p]
  }

  function Only(points: seq<Point>, ids: set<string>): seq<Point> {
    if points == [] then []
    else Only(points[..|points| - 1], ids) + if points[|points| - 1].id in ids then [points[|points| - 1]] else []
  }

  /** `c` behind every chunk whose index is not above its own. */
  function InsertByIndex(chunks: seq<Chunk>, c: Chunk): seq<Chunk> {
    if chunks == [] || chunks[|chunks| - 1].index <= c.index then chunks + [c]
    else InsertByIndex(chunks[..|chunks| - 1], c) + [chunks[|chunks| - 1]]
  }

  /** The pending rows of a document, by chunk index. */
  function PendingOf(rows: seq<Chunk>, documentId: string): seq<Chunk> {
    if rows == [] then []
    else
      var before, last := PendingOf(rows[..|rows| - 1], documentId), rows[|rows| - 1];
      if last.documentId == documentId && last.status == Pending then InsertByIndex(before, last) else before
  }

  function MarkRow(c: Chunk): Chunk {
    c.(status := Indexed, pointId := Some(c.id), error := "")
  }

  function Marked(rows: seq<Chunk>, ids: set<string>): seq<Chunk> {
    seq(|rows|, i requires 0 <= i < |rows| => if rows[i].id in ids then MarkRow(rows[i]) else rows[i])
  }

  function Ids(chunks: seq<Chunk>): set<string> {
    set c | c in chunks :: c.id
  }

  /** Row ids are a primary key. */
  ghost predicate UniqueIds(rows: seq<Chunk>) {
    forall i, j :: 0 <= i < j < |rows| ==> rows[i].id != rows[j].id
  }

  // ---------- batches ----------

  function BatchCount(n: nat): nat {
    (n + BATCH_SIZE - 1) / BATCH_SIZE
  }

  /** The batches sent for `points` from position `from` on. */
  function Batches<T>(points: seq<T>, from: nat): seq<seq<T>>
    decreases |points| - from
  {
    if from >= |points| then []
    else [points[from..Min(from + BATCH_SIZE, |points|)]] + Batches(points, from + BATCH_SIZE)
  }

  function Flat<T>(batches: seq<seq<T>>): seq<T> {
    if batches == [] then [] else batches[0] + Flat(batches[1..])
  }

  /** The batches partition the points in order, none is empty or above the size limit, and only
      the last may be short. */
  lemma {:induction false} BatchesPartition<T>(points: seq<T>, from: nat)
    requires from <= |points|
    ensures Flat(Batches(points, from)) == points[from..]
    ensures |Batches(points, from)| == BatchCount(|points| - from)
    ensures forall k :: 0 <= k < |Batches(points, from)| ==>
              0 < |Batches(points, from)[k]| <= 20 &&
              (k < |Batches(points, from)| - 1 ==> |Batches(points, from)[k]| == 20)
    decreases |points| - from
  {
    if from < |points| {
      var end := Min(from + BATCH_SIZE, |points|);
      if end < |points| {
        BatchesPartition(points, end);
      } else {
        assert Batches(points, from + BATCH_SIZE) == [];
      }
      assert points[from..] == points[from..end] + points[end..];
    }
  }

  lemma {:induction false} BatchAt<T>(points: seq<T>, from: nat, k: nat)
    requires k < |Batches(points, from)|
    ensures from + k * BATCH_SIZE < |points|
    ensures Batches(points, from)[k] == points[from + k * BATCH_SIZE..Min(from + k * BATCH_SIZE + BATCH_SIZE, |points|)]
    decreases k
  {
    if k > 0 {
      BatchAt(points, from + BATCH_SIZE, k - 1);
    }
  }

  // ---------- a run as a whole ----------

  /** Rows in the relational store, vectors in the vector store, upsert requests received. */
  datatype State = State(rows: seq<Chunk>, vectors: map<string, Point>, requests: seq<seq<Point>>)

  type Catalog = string -> Option<Document>

  /** The stores after the batch requests for `points`, and whether all of them succeeded. */
  function AfterUpserts(s: State, points: seq<Point>, fault: Fault): (State, bool) {
    var batches := Batches(points, 0);
    if fault.UpsertFails? && fault.batch < |batches| then
      var before := Upserted(s.vectors, points[..Min(fault.batch * BATCH_SIZE, |points|)]);
      (s.(vectors := Upserted(before, Only(batches[fault.batch], fault.stored)),
          requests := s.requests + batches[..fault.batch + 1]), false)
    else (s.(vectors := Upserted(s.vectors, points), requests := s.requests + batches), true)
  }

  /** The stores after marking `chunks`, and whether that succeeded. */
  function AfterMarks(s: State, chunks: seq<Chunk>, fault: Fault): (State, bool) {
    if fault.MarkFails? && fault.at < |chunks| then
      (s.(rows := Marked(s.rows, Ids(chunks[..if fault.applied then fault.at + 1 else fault.at]))), false)
    else (s.(rows := Marked(s.rows, Ids(chunks))), true)
  }

  function Run(s: State, documentId: string, catalog: Catalog, embed: Embedder, fault: Fault): (State, Result) {
    var chunks := PendingOf(s.rows, documentId);
    if fault.DocumentReadFails? then (s, Failed)
    else if catalog(documentId).None? then (s, DocumentMissing)
    else if fault.PendingReadFails? then (s, Failed)
    else
      if chunks == [] then (s, IndexedCount(0))
      else if fault.EmbedFails? && fault.at < |chunks| then (s, Failed)
      else
        var stored := AfterUpserts(s, PointsOf(catalog(documentId).value, embed, chunks), fault);
        if !stored.1 then (stored.0, Failed)
        else
          var marked := AfterMarks(stored.0, chunks, fault);
          (marked.0, if marked.1 then IndexedCount(|chunks|) else Failed)
  }

  class Stores {
    var rows: seq<Chunk>
    var vectors: map<string, Point>
    var requests: seq<seq<Point>>

    ghost function Abstract(): State
      reads this
    {
      State(rows, vectors, requests)
    }

    /** One upsert request; when it fails, `stored` says which of its points arrived. */
    method Upsert(batch: seq<Point>, fails: bool, stored: set<string>)
      modifies this
      ensures rows == old(rows) && requests == old(requests) + [batch]
      ensures vectors == Upserted(old(vectors), if fails then Only(batch, stored) else batch)
    {
      requests := requests + [batch];
      var arriving := if fails then Only(batch, stored) else batch;
      ghost var before := vectors;
      for i := 0 to |arriving|
        invariant rows == old(rows) && requests == old(requests) + [batch]
        invariant vectors == Upserted(before, arriving[..i])
      {
        assert arriving[..i + 1][..i] == arriving[..i];
        vectors := vectors[arriving[i].id := arriving[i]];
      }
      assert arriving[..|arriving|] == arriving;
    }

    method UpdateChunkStatus(id: string)
      modifies this`rows
      ensures rows == Marked(old(rows), {id})
    {
      rows := seq(|rows|, i requires 0 <= i < |rows| reads this =>
                 if rows[i].id == id then MarkRow(rows[i]) else rows[i]);
    }

    /** One round of the batch loop, from point `i` on. */
    method UpsertNext(points: seq<Point>, i: nat, fault: Fault, ghost sent: seq<seq<Point>>, ghost start: State)
      returns (fails: bool)
      requires i < |points| && SentSoFar(points, i, sent, start, Abstract())
      modifies this
      ensures fails == (fault.UpsertFails? && fault.batch == |sent|) && |sent| < |Batches(points, 0)|
      ensures !fails ==> SentSoFar(points, i + BATCH_SIZE, sent + [Batches(points, 0)[|sent|]], start, Abstract())
      ensures fails ==> Abstract() == AfterUpserts(start, points, fault).0
    {
      var end := i + BATCH_SIZE;
      if end > |points| {
        end := |points|;
      }
      SendOne(points, sent, i);
      fails := fault.UpsertFails? && fault.batch * BATCH_SIZE == i;
      ghost var before := Abstract();
      Upsert(points[i..end], fails, if fault.UpsertFails? then fault.stored else {});
      if fails {
        FailedSend(points, i, sent, start, before, fault);
      } else {
        OneMoreSent(points, i, sent, start, before);
      }
    }

    /** All batches in turn; stops at the batch that fails, if any. */
    method UpsertBatches(points: seq<Point>, fault: Fault) returns (ok: bool)
      modifies this
      ensures (Abstract(), ok) == AfterUpserts(old(Abstract()), points, fault)
    {
      var i := 0;
      ghost var sent: seq<seq<Point>> := [];
      while i < |points|
        invariant SentSoFar(points, i, sent, old(Abstract()), Abstract())
        invariant fault.UpsertFails? ==> |sent| <= fault.batch
      {
        var fails := UpsertNext(points, i, fault, sent, old(Abstract()));
        if fails {
          return false;
        }
        sent := sent + [Batches(points, 0)[|sent|]];
        i := i + BATCH_SIZE;
      }
      assert points[..Min(i, |points|)] == points && Batches(points, 0) == sent;
      ok := true;
    }

    method MarkChunks(chunks: seq<Chunk>, fault: Fault) returns (ok: bool)
      modifies this`rows
      ensures (Abstract(), ok) == AfterMarks(old(Abstract()), chunks, fault)
    {
      MarkedNone(rows);
      for i := 0 to |chunks|
        invariant rows == Marked(old(rows), Ids(chunks[..i]))
        invariant fault.MarkFails? ==> i <= fault.at
      {
        assert chunks[..i + 1] == chunks[..i] + [chunks[i]];
        MarkedTwice(old(rows), Ids(chunks[..i]), {chunks[i].id});
        assert Ids(chunks[..i]) + {chunks[i].id} == Ids(chunks[..i + 1]);
        var fails := fault.MarkFails? && fault.at == i;
        if !fails || fault.applied {
          UpdateChunkStatus(chunks[i].id);
        }
        if fails {
          return false;
        }
      }
      assert chunks[..|chunks|] == chunks;
      ok := true;
    }

    method ListPendingChunks(documentId: string) returns (chunks: seq<Chunk>)
      ensures chunks == PendingOf(rows, documentId)
    {
      chunks := [];
      for i := 0 to |rows|
        invariant chunks == PendingOf(rows[..i], documentId)
      {
        assert rows[..i + 1][..i] == rows[..i];
        if rows[i].documentId == documentId && rows[i].status == Pending {
          chunks := InsertByIndex(chunks, rows[i]);
        }
      }
      assert rows[..|rows|] == rows;
    }

    /** Embeds chunk by chunk; stops at the one that fails, if any. */
    static method ComputePoints(doc: Document, embed: Embedder, chunks: seq<Chunk>, fault: Fault)
      returns (ok: bool, points: seq<Point>)
      ensures ok <==> !(fault.EmbedFails? && fault.at < |chunks|)
      ensures ok ==> points == PointsOf(doc, embed, chunks)
    {
      points := [];
      for i := 0 to |chunks|
        invariant points == PointsOf(doc, embed, chunks[..i])
        invariant fault.EmbedFails? ==> i <= fault.at
      {
        if fault.EmbedFails? && fault.at == i {
          return false, [];
        }
        points := points + [PointOf(doc, embed, chunks[i])];
      }
      assert chunks[..|chunks|] == chunks;
      ok := true;
    }

    /** Vectors are computed and stored inside one activity; no chunk is marked before all
        batches are stored. */
    method EmbedAndUpsertChunks(documentId: string, catalog: Catalog, embed: Embedder, fault: Fault) returns (r: Result)
      modifies this
      ensures (Abstract(), r) == Run(old(Abstract()), documentId, catalog, embed, fault)
    {
      if fault.DocumentReadFails? {
        return Failed;
      }
      var doc := catalog(documentId);
      if doc.None? {
        return DocumentMissing;
      }
      if fault.PendingReadFails? {
        return Failed;
      }
      var chunks := ListPendingChunks(documentId);
      if |chunks| == 0 {
        return IndexedCount(0);
      }
      var embedded, points := ComputePoints(doc.value, embed, chunks, fault);
      if !embedded {
        return Failed;
      }
      var stored := UpsertBatches(points, fault);
      if !stored {
        return Failed;
      }
      var marked := MarkChunks(chunks, fault);
      if !marked {
        return Failed;
      }
      r := IndexedCount(|chunks|);
    }
  }

  // ---------- lemmas about the stores ----------

  lemma {:induction false} UpsertedConcat(vectors: map<string, Point>, a: seq<Point>, b: seq<Point>)
    ensures Upserted(vectors, a + b) == Upserted(Upserted(vectors, a), b)
  {
    if b == [] {
      assert a + b == a;
    } else {
      assert (a + b)[..|a + b| - 1] == a + b[..|b| - 1];
      UpsertedConcat(vectors, a, b[..|b| - 1]);
    }
  }

  lemma {:induction false} PrefixStep(vectors: map<string, Point>, points: seq<Point>, i: nat, end: nat)
    requires i <= end <= |points|
    ensures Upserted(Upserted(vectors, points[..i]), points[i..end]) == Upserted(vectors, points[..end])
  {
    UpsertedConcat(vectors, points[..i], points[i..end]);
    assert points[..i] + points[i..end] == points[..end];
  }

  lemma {:induction false} SendOne(points: seq<Point>, sent: seq<seq<Point>>, i: nat)
    requires i < |points| && Batches(points, 0) == sent + Batches(points, i)
    ensures var batch := points[i..Min(i + BATCH_SIZE, |points|)];
            && |sent| < |Batches(points, 0)| && Batches(points, 0)[|sent|] == batch
            && Batches(points, 0) == sent + [batch] + Batches(points, i + BATCH_SIZE)
  {
    var batch, rest := points[i..Min(i + BATCH_SIZE, |points|)], Batches(points, i + BATCH_SIZE);
    assert Batches(points, i) == [batch] + rest;
    assert sent + ([batch] + rest) == sent + [batch] + rest;
  }

  /** The requests of `sent` cover the points in front of `i` and all succeeded. */
  ghost predicate SentSoFar(points: seq<Point>, i: nat, sent: seq<seq<Point>>, start: State, s: State) {
    && i == |sent| * BATCH_SIZE && Batches(points, 0) == sent + Batches(points, i)
    && s == start.(vectors := Upserted(start.vectors, points[..Min(i, |points|)]), requests := start.requests + sent)
  }

  lemma OneMoreSent(points: seq<Point>, i: nat, sent: seq<seq<Point>>, start: State, s: State)
    requires i < |points| && SentSoFar(points, i, sent, start, s)
    ensures var batch := points[i..Min(i + BATCH_SIZE, |points|)];
            SentSoFar(points, i + BATCH_SIZE, sent + [batch], start,
                      s.(vectors := Upserted(s.vectors, batch), requests := s.requests + [batch]))
  {
    var end := Min(i + BATCH_SIZE, |points|);
    SendOne(points, sent, i);
    PrefixStep(start.vectors, points, i, end);
    Associates(start.requests, sent, [points[i..end]]);
  }

  lemma FailedSend(points: seq<Point>, i: nat, sent: seq<seq<Point>>, start: State, s: State, fault: Fault)
    requires i < |points| && SentSoFar(points, i, sent, start, s) && fault.UpsertFails? && fault.batch == |sent|
    ensures var batch := points[i..Min(i + BATCH_SIZE, |points|)];
            AfterUpserts(start, points, fault) ==
            (s.(vectors := Upserted(s.vectors, Only(batch, fault.stored)), requests := s.requests + [batch]), false)
  {
    var batch := points[i..Min(i + BATCH_SIZE, |points|)];
    SendOne(points, sent, i);
    assert Batches(points, 0)[..|sent| + 1] == sent + [batch];
    Associates(start.requests, sent, [batch]);
  }

  lemma MarkedNone(rows: seq<Chunk>)
    ensures Marked(rows, Ids([])) == rows
  {
  }

  lemma MarkedTwice(rows: seq<Chunk>, a: set<string>, b: set<string>)
    ensures Marked(Marked(rows, a), b) == Marked(rows, a + b)
  {
  }

  /** Points with the same id are the same point. */
  ghost predicate Coherent(points: seq<Point>) {
    forall p, q :: p in points && q in points && p.id == q.id ==> p == q
  }

  lemma {:induction false} UpsertedAt(vectors: map<string, Point>, points: seq<Point>, id: string)
    requires Coherent(points)
    ensures (exists p :: p in points && p.id == id) ==>
              id in Upserted(vectors, points) && Upserted(vectors, points)[id] in points
              && Upserted(vectors, points)[id].id == id
    ensures !(exists p :: p in points && p.id == id) ==>
              (id in Upserted(vectors, points) <==> id in vectors)
              && (id in vectors ==> Upserted(vectors, points)[id] == vectors[id])
  {
    if points != [] {
      var init, last := points[..|points| - 1], points[|points| - 1];
      assert points == init + [last] && last in points;
      UpsertedAt(vectors, init, id);
    }
  }

  lemma {:induction false} UpsertAbsorbsAt(vectors: map<string, Point>, points: seq<Point>, some: seq<Point>,
      id: string)
    requires Coherent(points) && forall p :: p in some ==> p in points
    ensures var all := Upserted(vectors, points);
            var before, after := Upserted(Upserted(vectors, some), points), Upserted(all, some);
            && (id in before <==> id in all) && (id in after <==> id in all)
            && (id in all ==> before[id] == all[id] == after[id])
  {
    UpsertedAt(vectors, points, id);
    UpsertedAt(vectors, some, id);
    UpsertedAt(Upserted(vectors, some), points, id);
    UpsertedAt(Upserted(vectors, points), some, id);
  }

  /** Storing some of the points before or after storing all of them makes no difference. */
  lemma {:induction false} UpsertAbsorbs(vectors: map<string, Point>, points: seq<Point>, some: seq<Point>)
    requires Coherent(points) && forall p :: p in some ==> p in points
    ensures Upserted(Upserted(vectors, some), points) == Upserted(vectors, points)
    ensures Upserted(Upserted(vectors, points), some) == Upserted(vectors, points)
  {
    forall id { UpsertAbsorbsAt(vectors, points, some, id); }
  }

  lemma {:induction false} InsertedMembers(chunks: seq<Chunk>, c: Chunk)
    ensures forall x :: x in InsertByIndex(chunks, c) <==> x in chunks || x == c
  {
    if chunks != [] && chunks[|chunks| - 1].index > c.index {
      assert chunks == chunks[..|chunks| - 1] + [chunks[|chunks| - 1]];
      InsertedMembers(chunks[..|chunks| - 1], c);
    }
  }

  lemma {:induction false} PendingExact(rows: seq<Chunk>, documentId: string)
    ensures forall c :: c in PendingOf(rows, documentId) <==>
              c in rows && c.documentId == documentId && c.status == Pending
  {
    if rows != [] {
      assert rows == rows[..|rows| - 1] + [rows[|rows| - 1]];
      PendingExact(rows[..|rows| - 1], documentId);
      InsertedMembers(PendingOf(rows[..|rows| - 1], documentId), rows[|rows| - 1]);
    }
  }

  ghost predicate ByIndex(chunks: seq<Chunk>) {
    forall i, j :: 0 <= i < j < |chunks| ==> chunks[i].index <= chunks[j].index
  }

  lemma {:induction false} InsertedInOrder(chunks: seq<Chunk>, c: Chunk)
    requires ByIndex(chunks)
    ensures ByIndex(InsertByIndex(chunks, c)) && |InsertByIndex(chunks, c)| == |chunks| + 1
  {
    if chunks != [] && chunks[|chunks| - 1].index > c.index {
      var init, last := chunks[..|chunks| - 1], chunks[|chunks| - 1];
      InsertedInOrder(init, c);
      InsertedMembers(init, c);
      var more := InsertByIndex(init, c);
      forall i | 0 <= i < |more| ensures more[i].index <= last.index { assert more[i] in more; }
    }
  }

  /** The pending list: every pending row of the document once, in the order of the chunk index. */
  lemma {:induction false} PendingListed(rows: seq<Chunk>, documentId: string)
    ensures ByIndex(PendingOf(rows, documentId))
    ensures forall c :: c in PendingOf(rows, documentId) <==>
              c in rows && c.documentId == documentId && c.status == Pending
    ensures UniqueIds(rows) ==> UniqueIds(PendingOf(rows, documentId))
  {
    PendingExact(rows, documentId);
    if rows != [] {
      var init, last := rows[..|rows| - 1], rows[|rows| - 1];
      var before := PendingOf(init, documentId);
      PendingListed(init, documentId);
      InsertedInOrder(before, last);
      if UniqueIds(rows) {
        forall i | 0 <= i < |before| ensures before[i].id != last.id {
          assert before[i] in before;
          var j :| 0 <= j < |init| && init[j] == before[i];
          assert rows[j] == before[i];
        }
        InsertedUnique(before, last);
      }
    }
  }

  lemma {:induction false} InsertedUnique(chunks: seq<Chunk>, c: Chunk)
    requires UniqueIds(chunks) && forall i :: 0 <= i < |chunks| ==> chunks[i].id != c.id
    ensures UniqueIds(InsertByIndex(chunks, c))
  {
    if chunks != [] && chunks[|chunks| - 1].index > c.index {
      var init, last := chunks[..|chunks| - 1], chunks[|chunks| - 1];
      InsertedUnique(init, c);
      InsertedMembers(init, c);
      var more := InsertByIndex(init, c);
      forall i | 0 <= i < |more| ensures more[i].id != last.id {
        assert more[i] in more;
        if more[i] != c { var j :| 0 <= j < |init| && init[j] == more[i]; }
      }
    }
  }

  lemma {:induction false} OnlyExact(points: seq<Point>, ids: set<string>)
    ensures forall p :: p in Only(points, ids) <==> p in points && p.id in ids
  {
    if points != [] {
      assert points == points[..|points| - 1] + [points[|points| - 1]];
      OnlyExact(points[..|points| - 1], ids);
    }
  }

  lemma SameIdSameRow(rows: seq<Chunk>, a: Chunk, b: Chunk)
    requires UniqueIds(rows) && a in rows && b in rows && a.id == b.id
    ensures a == b
  {
    var i :| 0 <= i < |rows| && rows[i] == a;
    var j :| 0 <= j < |rows| && rows[j] == b;
  }

  lemma {:induction false} PointsCoherent(rows: seq<Chunk>, documentId: string, doc: Document, embed: Embedder)
    requires UniqueIds(rows)
    ensures Coherent(PointsOf(doc, embed, PendingOf(rows, documentId)))
  {
    var chunks := PendingOf(rows, documentId);
    PendingExact(rows, documentId);
    var points := PointsOf(doc, embed, chunks);
    forall p, q | p in points && q in points && p.id == q.id ensures p == q {
      var i :| 0 <= i < |chunks| && p == PointOf(doc, embed, chunks[i]);
      var j :| 0 <= j < |chunks| && q == PointOf(doc, embed, chunks[j]);
      SameIdSameRow(rows, chunks[i], chunks[j]);
    }
  }

  lemma MarkedExact(rows: seq<Chunk>, ids: set<string>)
    ensures forall c :: c in Marked(rows, ids) <==>
              (c in rows && c.id !in ids) || (c.id in ids && exists r :: r in rows && r.id == c.id && c == MarkRow(r))
    ensures UniqueIds(rows) ==> UniqueIds(Marked(rows, ids))
  {
    forall c ensures c in Marked(rows, ids) <==>
              (c in rows && c.id !in ids) || (c.id in ids && exists r :: r in rows && r.id == c.id && c == MarkRow(r))
    {
      if c in Marked(rows, ids) {
        var i :| 0 <= i < |rows| && Marked(rows, ids)[i] == c;
        assert rows[i] in rows;
      }
      if c in rows && c.id !in ids {
        var i :| 0 <= i < |rows| && rows[i] == c;
        assert Marked(rows, ids)[i] == c;
      }
      if r :| c.id in ids && r in rows && r.id == c.id && c == MarkRow(r) {
        var i :| 0 <= i < |rows| && rows[i] == r;
        assert Marked(rows, ids)[i] == c;
      }
    }
  }

  // ---------- crashes and retries ----------

  /** The same rows and vectors; the log of upsert requests may differ. */
  predicate SameStores(a: State, b: State) {
    a.rows == b.rows && a.vectors == b.vectors
  }

  function Clean(s: State, documentId: string, catalog: Catalog, embed: Embedder): State {
    Run(s, documentId, catalog, embed, NoFault).0
  }

  /** What any run, failed or not, leaves behind: some marked ids, some stored points. */
  lemma RunEffect(s: State, documentId: string, catalog: Catalog, embed: Embedder, fault: Fault)
    returns (ids: set<string>, some: seq<Point>)
    requires catalog(documentId).Some?
    ensures var chunks := PendingOf(s.rows, documentId);
            var points := PointsOf(catalog(documentId).value, embed, chunks);
            var r := Run(s, documentId, catalog, embed, fault).0;
            && ids <= Ids(chunks) && (forall p :: p in some ==> p in points)
            && r.rows == Marked(s.rows, ids) && r.vectors == Upserted(s.vectors, some)
            && (ids != {} ==> some == points)
            && (fault == NoFault ==> ids == Ids(chunks) && some == points)
  {
    var chunks := PendingOf(s.rows, documentId);
    var points := PointsOf(catalog(documentId).value, embed, chunks);
    var batches := Batches(points, 0);
    MarkedNone(s.rows);
    if fault.DocumentReadFails? || fault.PendingReadFails? || chunks == [] ||
       (fault.EmbedFails? && fault.at < |chunks|) {
      ids, some := {}, [];
    } else if fault.UpsertFails? && fault.batch < |batches| {
      var front := points[..Min(fault.batch * BATCH_SIZE, |points|)];
      BatchAt(points, 0, fault.batch);
      OnlyExact(batches[fault.batch], fault.stored);
      ids, some := {}, front + Only(batches[fault.batch], fault.stored);
      UpsertedConcat(s.vectors, front, Only(batches[fault.batch], fault.stored));
    } else {
      some := points;
      ids := Ids(if fault.MarkFails? && fault.at < |chunks|
                 then chunks[..if fault.applied then fault.at + 1 else fault.at] else chunks);
    }
  }

  lemma {:induction false} PendingAfterMarking(rows: seq<Chunk>, documentId: string, ids: set<string>)
    requires UniqueIds(rows)
    ensures forall c :: c in PendingOf(Marked(rows, ids), documentId) <==>
              c in PendingOf(rows, documentId) && c.id !in ids
  {
    PendingExact(rows, documentId);
    PendingExact(Marked(rows, ids), documentId);
    MarkedExact(rows, ids);
  }

  lemma PointMembers(doc: Document, embed: Embedder, chunks: seq<Chunk>, p: Point)
    ensures p in PointsOf(doc, embed, chunks) <==> exists c :: c in chunks && p == PointOf(doc, embed, c)
  {
    if c :| c in chunks && p == PointOf(doc, embed, c) {
      var i :| 0 <= i < |chunks| && chunks[i] == c;
      assert PointsOf(doc, embed, chunks)[i] == p;
    }
  }

  /** The points of the chunks left pending are among the points of all pending chunks. */
  lemma {:induction false} RemainingPoints(rows: seq<Chunk>, documentId: string, ids: set<string>, doc: Document,
                        embed: Embedder, p: Point)
    requires UniqueIds(rows)
    ensures var all := PointsOf(doc, embed, PendingOf(rows, documentId));
            var rest := PointsOf(doc, embed, PendingOf(Marked(rows, ids), documentId));
            (p in rest ==> p in all) && (ids == {} && p in all ==> p in rest)
  {
    PendingAfterMarking(rows, documentId, ids);
    PointMembers(doc, embed, PendingOf(rows, documentId), p);
    PointMembers(doc, embed, PendingOf(Marked(rows, ids), documentId), p);
  }

  /** Crash anywhere, then one clean run: rows and vectors are those of a single clean run. */
  lemma CrashThenRetry(s: State, documentId: string, catalog: Catalog, embed: Embedder, fault: Fault)
    requires UniqueIds(s.rows)
    ensures var crashed := Run(s, documentId, catalog, embed, fault).0;
            UniqueIds(crashed.rows) &&
            SameStores(Clean(crashed, documentId, catalog, embed), Clean(s, documentId, catalog, embed))
  {
    if catalog(documentId).Some? {
      var crashed, doc := Run(s, documentId, catalog, embed, fault).0, catalog(documentId).value;
      var ids, some := RunEffect(s, documentId, catalog, embed, fault);
      var all, points := RunEffect(s, documentId, catalog, embed, NoFault);
      var rest, more := RunEffect(crashed, documentId, catalog, embed, NoFault);
      MarkedExact(s.rows, ids);
      assert Marked(crashed.rows, rest) == Marked(s.rows, all) by {
        PendingAfterMarking(s.rows, documentId, ids);
        assert ids + rest == all;
        MarkedTwice(s.rows, ids, rest);
      }
      assert Upserted(crashed.vectors, more) == Upserted(s.vectors, points) by {
        PointsCoherent(s.rows, documentId, doc, embed);
        forall p ensures (p in more ==> p in points) && (ids == {} && p in points ==> p in more) {
          RemainingPoints(s.rows, documentId, ids, doc, embed, p);
        }
        StoreRest(s.vectors, points, some, more, ids == {});
      }
    }
  }

  /** Storing `some` and then `more` of the points is storing all of them, if one of the two
      covers everything. */
  lemma {:induction false} StoreRest(vectors: map<string, Point>, points: seq<Point>, some: seq<Point>,
      more: seq<Point>, moreIsAll: bool)
    requires Coherent(points)
    requires forall p :: p in some || p in more ==> p in points
    requires if moreIsAll then forall p :: p in points ==> p in more else some == points
    ensures Upserted(Upserted(vectors, some), more) == Upserted(vectors, points)
  {
    if moreIsAll {
      UpsertAbsorbs(vectors, more, some);
      UpsertAbsorbs(vectors, points, more);
      UpsertAbsorbs(vectors, more, points);
    } else {
      UpsertAbsorbs(vectors, points, more);
    }
  }

  function RunAll(s: State, documentId: string, catalog: Catalog, embed: Embedder, faults: seq<Fault>): State {
    if faults == [] then s
    else Run(RunAll(s, documentId, catalog, embed, faults[..|faults| - 1]), documentId, catalog, embed,
             faults[|faults| - 1]).0
  }

  /** Any number of failed attempts, each stopping anywhere, then one clean run: the final state
      is that of one clean run without any failure. */
  lemma {:induction false} RetriesReachCleanState(s: State, documentId: string, catalog: Catalog,
                                                  embed: Embedder, faults: seq<Fault>)
    requires UniqueIds(s.rows)
    ensures var crashed := RunAll(s, documentId, catalog, embed, faults);
            UniqueIds(crashed.rows) &&
            SameStores(Clean(crashed, documentId, catalog, embed), Clean(s, documentId, catalog, embed))
  {
    if faults != [] {
      RetriesReachCleanState(s, documentId, catalog, embed, faults[..|faults| - 1]);
      CrashThenRetry(RunAll(s, documentId, catalog, embed, faults[..|faults| - 1]), documentId, catalog, embed,
                     faults[|faults| - 1]);
    }
  }

  /** The point is the chunk's own, field by field: the vector that of its content, and the document's
      data that of its document. */
  ghost predicate Carries(p: Point, c: Chunk, doc: Document, embed: Embedder) {
    && p.vector == embed(c.content) && p.id == c.id && p.chunkId == c.id && p.chunkIndex == c.index
    && p.tenantId == c.tenantId && p.documentId == c.documentId && p.contentHash == c.contentHash
    && p.sourceType == doc.sourceType && p.sourceUri == doc.sourceUri && p.title == doc.title
  }

  /** Under this id the store holds the chunk's own point. */
  ghost predicate Holds(vectors: map<string, Point>, c: Chunk, doc: Document, embed: Embedder) {
    c.id in vectors && Carries(vectors[c.id], c, doc, embed)
  }

  /** Every indexed row points at its own id, where its own point is stored. */
  ghost predicate Consistent(s: State, catalog: Catalog, embed: Embedder) {
    forall c :: c in s.rows && c.status == Indexed ==>
      && catalog(c.documentId).Some? && c.pointId == Some(c.id)
      && Holds(s.vectors, c, catalog(c.documentId).value, embed)
  }

  /** The central safety property, at every possible stopping point of every run over any of the
      documents: a chunk is never marked indexed before its own point is in the vector store. */
  lemma RunKeepsConsistent(s: State, documentId: string, catalog: Catalog, embed: Embedder, fault: Fault)
    requires UniqueIds(s.rows) && Consistent(s, catalog, embed)
    ensures Consistent(Run(s, documentId, catalog, embed, fault).0, catalog, embed)
  {
    if catalog(documentId).Some? {
      var r, doc := Run(s, documentId, catalog, embed, fault).0, catalog(documentId).value;
      var ids, some := RunEffect(s, documentId, catalog, embed, fault);
      var chunks := PendingOf(s.rows, documentId);
      var points := PointsOf(doc, embed, chunks);
      PendingExact(s.rows, documentId);
      MarkedExact(s.rows, ids);
      PointsCoherent(s.rows, documentId, doc, embed);
      forall c | c in r.rows && c.status == Indexed
        ensures catalog(c.documentId).Some? && c.pointId == Some(c.id)
        ensures Holds(r.vectors, c, catalog(c.documentId).value, embed)
      {
        UpsertedAt(s.vectors, some, c.id);
        if c.id in ids {
          var row :| row in s.rows && row.id == c.id && c == MarkRow(row);
          var pending :| pending in chunks && pending.id == c.id;
          SameIdSameRow(s.rows, row, pending);
          PointMembers(doc, embed, chunks, PointOf(doc, embed, row));
          assert PointOf(doc, embed, row) in points;
        } else {
          forall p | p in some ensures p.id != c.id {
            PointMembers(doc, embed, chunks, p);
            var pending :| pending in chunks && p == PointOf(doc, embed, pending);
            if p.id == c.id { SameIdSameRow(s.rows, c, pending); }
          }
        }
      }
    }
  }

  /** A clean run leaves no chunk of the document pending and reports how many it indexed. */
  lemma {:induction false} CleanRunIndexesAll(s: State, documentId: string, catalog: Catalog, embed: Embedder)
    requires UniqueIds(s.rows) && catalog(documentId).Some?
    ensures PendingOf(Clean(s, documentId, catalog, embed).rows, documentId) == []
    ensures Run(s, documentId, catalog, embed, NoFault).1 == IndexedCount(|PendingOf(s.rows, documentId)|)
  {
    var chunks := PendingOf(s.rows, documentId);
    var left := PendingOf(Clean(s, documentId, catalog, embed).rows, documentId);
    assert left != [] ==> left[0] in left;
    PendingAfterMarking(s.rows, documentId, Ids(chunks));
  }

  // ---------- what a run leaves, chunk by chunk ----------

  /** The row is marked: it points at its own id, and nothing else about it changed but the error. */
  ghost predicate MarkedAs(before: Chunk, after: Chunk) {
    && after.status == Indexed && after.pointId == Some(before.id) && after.error == ""
    && after.id == before.id && after.documentId == before.documentId && after.tenantId == before.tenantId
    && after.index == before.index && after.content == before.content && after.contentHash == before.contentHash
  }

  ghost predicate IsPending(c: Chunk, documentId: string) {
    c.documentId == documentId && c.status == Pending
  }

  lemma {:induction false} PendingRow(rows: seq<Chunk>, documentId: string, i: nat)
    requires UniqueIds(rows) && i < |rows|
    ensures IsPending(rows[i], documentId) <==> rows[i].id in Ids(PendingOf(rows, documentId))
  {
    PendingExact(rows, documentId);
    if rows[i].id in Ids(PendingOf(rows, documentId)) {
      var c :| c in PendingOf(rows, documentId) && c.id == rows[i].id;
      SameIdSameRow(rows, rows[i], c);
    }
  }

  /** What storing some of the pending chunks' points, those of `stored`, makes of the vector store. */
  ghost predicate StoresExactly(before: map<string, Point>, after: map<string, Point>, chunks: seq<Chunk>,
                                stored: set<string>, doc: Document, embed: Embedder)
  {
    && (forall c :: c in chunks && c.id in stored ==> Holds(after, c, doc, embed))
    && forall id :: id !in stored ==> (id in after <==> id in before) && (id in after ==> after[id] == before[id])
  }

  lemma {:induction false} StoredPoints(rows: seq<Chunk>, documentId: string, vectors: map<string, Point>,
      doc: Document, embed: Embedder,
                     some: seq<Point>, stored: set<string>)
    requires UniqueIds(rows)
    requires forall p :: p in some ==> p in PointsOf(doc, embed, PendingOf(rows, documentId)) && p.id in stored
    requires forall c :: c in PendingOf(rows, documentId) && c.id in stored ==> PointOf(doc, embed, c) in some
    ensures StoresExactly(vectors, Upserted(vectors, some), PendingOf(rows, documentId), stored, doc, embed)
  {
    var chunks := PendingOf(rows, documentId);
    PointsCoherent(rows, documentId, doc, embed);
    forall c | c in chunks && c.id in stored ensures Holds(Upserted(vectors, some), c, doc, embed) {
      UpsertedAt(vectors, some, c.id);
      PointMembers(doc, embed, chunks, PointOf(doc, embed, c));
    }
    forall id | id !in stored
      ensures var after := Upserted(vectors, some);
              (id in after <==> id in vectors) && (id in after ==> after[id] == vectors[id])
    {
      UpsertedAt(vectors, some, id);
    }
  }

  /** After a clean run every chunk of the document that was pending is marked and its own point is
      stored; no other row and no other point is touched. */
  lemma {:induction false} CleanRunStores(s: State, documentId: string, catalog: Catalog, embed: Embedder, i: nat)
    requires UniqueIds(s.rows) && catalog(documentId).Some? && i < |s.rows|
    ensures var r, doc := Clean(s, documentId, catalog, embed), catalog(documentId).value;
            var chunks := PendingOf(s.rows, documentId);
            && |r.rows| == |s.rows|
            && (IsPending(s.rows[i], documentId) ==>
                  MarkedAs(s.rows[i], r.rows[i]) && Holds(r.vectors, s.rows[i], doc, embed))
            && (!IsPending(s.rows[i], documentId) ==> r.rows[i] == s.rows[i])
            && StoresExactly(s.vectors, r.vectors, chunks, Ids(chunks), doc, embed)
  {
    var doc, chunks := catalog(documentId).value, PendingOf(s.rows, documentId);
    var ids, some := RunEffect(s, documentId, catalog, embed, NoFault);
    PendingRow(s.rows, documentId, i);
    PendingExact(s.rows, documentId);
    forall p | p in some ensures p.id in Ids(chunks) { PointMembers(doc, embed, chunks, p); }
    forall c | c in chunks ensures PointOf(doc, embed, c) in some {
      PointMembers(doc, embed, chunks, PointOf(doc, embed, c));
    }
    StoredPoints(s.rows, documentId, s.vectors, doc, embed, some, Ids(chunks));
  }

  /** The ids of the chunks whose points arrived: those of the batches of twenty before the failing
      one, and those of the failing one that got through. */
  ghost function Arrived(chunks: seq<Chunk>, batch: nat, through: set<string>): set<string> {
    set k | 0 <= k < |chunks| && (k < 20 * batch || (k < 20 * batch + 20 && chunks[k].id in through)) :: chunks[k].id
  }

  lemma {:induction false} BatchNumber(points: seq<Point>, batch: nat)
    requires 20 * batch < |points|
    ensures |Batches(points, 0)| > batch
    ensures Batches(points, 0)[batch] == points[20 * batch..Min(20 * batch + 20, |points|)]
  {
    BatchesPartition(points, 0);
    BatchAt(points, 0, batch);
  }

  lemma SliceMembers(points: seq<Point>, from: nat, to: nat, p: Point)
    requires from <= to <= |points|
    ensures p in points[from..to] <==> exists k :: from <= k < to && points[k] == p
  {
    if p in points[from..to] {
      var j :| 0 <= j < to - from && points[from..to][j] == p;
      assert points[from + j] == p;
    }
    if k :| from <= k < to && points[k] == p { assert points[from..to][k - from] == p; }
  }

  lemma {:induction false} BatchMembers(points: seq<Point>, batch: nat, through: set<string>, p: Point)
    requires 20 * batch < |points|
    ensures |Batches(points, 0)| > batch
    ensures p in points[..20 * batch] + Only(Batches(points, 0)[batch], through) <==>
            exists k :: 0 <= k < |points| && points[k] == p &&
                        (k < 20 * batch || (k < 20 * batch + 20 && points[k].id in through))
  {
    BatchNumber(points, batch);
    SliceMembers(points, 0, 20 * batch, p);
    SliceMembers(points, 20 * batch, Min(20 * batch + 20, |points|), p);
    OnlyExact(Batches(points, 0)[batch], through);
  }

  /** The points of the first batches and of what got through of the next one. */
  function Delivered(points: seq<Point>, batch: nat, through: set<string>): seq<Point>
    requires 20 * batch < |points|
  {
    BatchesPartition(points, 0);
    points[..20 * batch] + Only(Batches(points, 0)[batch], through)
  }

  lemma FailedUpsert(s: State, points: seq<Point>, batch: nat, through: set<string>)
    requires 20 * batch < |points|
    ensures var r := AfterUpserts(s, points, UpsertFails(batch, through));
            !r.1 && r.0.rows == s.rows && r.0.vectors == Upserted(s.vectors, Delivered(points, batch, through))
  {
    BatchesPartition(points, 0);
    UpsertedConcat(s.vectors, points[..20 * batch], Only(Batches(points, 0)[batch], through));
  }

  lemma {:induction false} RunWithFailedUpsert(s: State, documentId: string, catalog: Catalog, embed: Embedder,
      batch: nat,
                            through: set<string>)
    requires catalog(documentId).Some? && 20 * batch < |PendingOf(s.rows, documentId)|
    ensures var points := PointsOf(catalog(documentId).value, embed, PendingOf(s.rows, documentId));
            var r := Run(s, documentId, catalog, embed, UpsertFails(batch, through));
            r.1 == Failed && r.0.rows == s.rows && r.0.vectors == Upserted(s.vectors, Delivered(points, batch, through))
  {
    FailedUpsert(s, PointsOf(catalog(documentId).value, embed, PendingOf(s.rows, documentId)), batch, through);
  }

  /** An upsert that fails ends the run: no row is marked, and what is stored are the points that
      arrived. */
  lemma {:induction false} FailedUpsertStores(s: State, documentId: string, catalog: Catalog, embed: Embedder,
      batch: nat,
                           through: set<string>)
    requires UniqueIds(s.rows) && catalog(documentId).Some? && 20 * batch < |PendingOf(s.rows, documentId)|
    ensures var r := Run(s, documentId, catalog, embed, UpsertFails(batch, through));
            var chunks := PendingOf(s.rows, documentId);
            && r.1 == Failed && r.0.rows == s.rows
            && StoresExactly(s.vectors, r.0.vectors, chunks, Arrived(chunks, batch, through), catalog(documentId).value,
                             embed)
  {
    var doc, chunks := catalog(documentId).value, PendingOf(s.rows, documentId);
    var points := PointsOf(doc, embed, chunks);
    var some := Delivered(points, batch, through);
    RunWithFailedUpsert(s, documentId, catalog, embed, batch, through);
    forall p | p in some ensures p in points && p.id in Arrived(chunks, batch, through) {
      BatchMembers(points, batch, through, p);
    }
    forall c | c in chunks && c.id in Arrived(chunks, batch, through) ensures PointOf(doc, embed, c) in some {
      ArrivedIsDelivered(s.rows, documentId, doc, embed, batch, through, c);
    }
    StoredPoints(s.rows, documentId, s.vectors, doc, embed, some, Arrived(chunks, batch, through));
  }

  lemma {:induction false} ArrivedIsDelivered(rows: seq<Chunk>, documentId: string, doc: Document,
      embed: Embedder, batch: nat,
                           through: set<string>, c: Chunk)
    requires UniqueIds(rows) && 20 * batch < |PendingOf(rows, documentId)|
    requires c in PendingOf(rows, documentId) && c.id in Arrived(PendingOf(rows, documentId), batch, through)
    ensures PointOf(doc, embed, c) in Delivered(PointsOf(doc, embed, PendingOf(rows, documentId)), batch, through)
  {
    var chunks := PendingOf(rows, documentId);
    var k :| 0 <= k < |chunks| && chunks[k].id == c.id &&
             (k < 20 * batch || (k < 20 * batch + 20 && chunks[k].id in through));
    PendingExact(rows, documentId);
    SameIdSameRow(rows, c, chunks[k]);
    BatchMembers(PointsOf(doc, embed, chunks), batch, through, PointsOf(doc, embed, chunks)[k]);
  }

  /** A status update that fails ends the run: every point is stored, and of the pending chunks those
      before the failing one are marked, and that one if the update was applied. */
  lemma {:induction false} FailedMarkMarks(s: State, documentId: string, catalog: Catalog, embed: Embedder,
      at: nat, applied: bool,
                        i: nat)
    requires UniqueIds(s.rows) && catalog(documentId).Some? && at < |PendingOf(s.rows, documentId)| && i < |s.rows|
    ensures var r := Run(s, documentId, catalog, embed, MarkFails(at, applied));
            var chunks := PendingOf(s.rows, documentId);
            && r.1 == Failed && |r.0.rows| == |s.rows|
            && r.0.vectors == Clean(s, documentId, catalog, embed).vectors
            && (if exists k :: 0 <= k < |chunks| && chunks[k].id == s.rows[i].id && (k < at || (k == at && applied))
                then MarkedAs(s.rows[i], r.0.rows[i]) else r.0.rows[i] == s.rows[i])
  {
    var chunks := PendingOf(s.rows, documentId);
    var done := chunks[..if applied then at + 1 else at];
    assert Run(s, documentId, catalog, embed, MarkFails(at, applied)).0.rows == Marked(s.rows, Ids(done));
    if k :| 0 <= k < |chunks| && chunks[k].id == s.rows[i].id && (k < at || (k == at && applied)) {
      assert done[k] == chunks[k];
    }
    if s.rows[i].id in Ids(done) {
      var c :| c in done && c.id == s.rows[i].id;
      var k :| 0 <= k < |done| && done[k] == c;
      assert chunks[k] == c;
    }
  }

  /** Whether a fault comes into play for `n` pending chunks of a document that exists. */
  predicate Strikes(fault: Fault, n: nat) {
    match fault
    case NoFault => false
    case DocumentReadFails => true
    case PendingReadFails => true
    case EmbedFails(at) => at < n
    case UpsertFails(batch, _) => 20 * batch < n
    case MarkFails(at, _) => at < n
  }

  /** What a run reports, and that it changes nothing before its first upsert. */
  lemma {:induction false} RunReports(s: State, documentId: string, catalog: Catalog, embed: Embedder, fault: Fault)
    ensures var r, n := Run(s, documentId, catalog, embed, fault), |PendingOf(s.rows, documentId)|;
            && r.1 == (if fault == DocumentReadFails then Failed
                       else if catalog(documentId).None? then DocumentMissing
                       else if Strikes(fault, n) then Failed else IndexedCount(n))
            && (r.1 == DocumentMissing || fault in {DocumentReadFails, PendingReadFails} ==> r.0 == s)
            && (fault.EmbedFails? && Strikes(fault, n) ==> r.0 == s)
  {
    if catalog(documentId).Some? {
      BatchesPartition(PointsOf(catalog(documentId).value, embed, PendingOf(s.rows, documentId)), 0);
    }
  }

  /** The requests of a clean run carry the chunks in order, twenty at a time. */
  lemma CleanRunRequests(s: State, documentId: string, catalog: Catalog, embed: Embedder)
    returns (sent: seq<seq<Point>>)
    requires catalog(documentId).Some?
    ensures Clean(s, documentId, catalog, embed).requests == s.requests + sent
    ensures var chunks := PendingOf(s.rows, documentId);
            && |Flat(sent)| == |chunks|
            && forall k :: 0 <= k < |chunks| ==> Carries(Flat(sent)[k], chunks[k], catalog(documentId).value, embed)
    ensures forall k :: 0 <= k < |sent| ==> 0 < |sent[k]| <= 20 && (k < |sent| - 1 ==> |sent[k]| == 20)
  {
    var chunks := PendingOf(s.rows, documentId);
    var points := PointsOf(catalog(documentId).value, embed, chunks);
    sent := Batches(points, 0);
    BatchesPartition(points, 0);
  }
}
