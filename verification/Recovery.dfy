/** Durability over whole runs: appends, commits, rollbacks, and crashes at any byte. */
module Recovery {
  import opened Base
  import opened Labels
  import opened Samples
  import opened HeadSpec
  import opened HeadBatch
  import opened HeadReplay
  import opened WalCodec
  import opened WalLog
  import opened WalSegments
  import P = Postings

  // ---- The abstract store: label sets to first-write-wins sample lists ----

  datatype Point = Point(labels: LabelList, t: Int64, v: Uint64)

  type Store = map<LabelList, seq<Sample>>

  ghost function Put(store: Store, p: Point): Store {
    store[p.labels := Inserted(if p.labels in store then store[p.labels] else [], p.t, p.v)]
  }

  ghost function PutAll(store: Store, ps: seq<Point>): Store {
    if ps == [] then store else Put(PutAll(store, ps[..|ps| - 1]), ps[|ps| - 1])
  }

  lemma {:induction false} PutAllConcat(store: Store, a: seq<Point>, b: seq<Point>)
    ensures PutAll(store, a + b) == PutAll(PutAll(store, a), b)
  {
    hide Put;
    if b == [] {
      assert a + b == a;
    } else {
      PutAllConcat(store, a, b[..|b| - 1]);
      assert (a + b)[..|a + b| - 1] == a + b[..|b| - 1];
    }
  }

  /** What the head holds: the samples of each label set that has any. */
  ghost function Content(hs: HeadState): Store
    requires Distinct(hs)
  {
    map r | r in hs.series && hs.series[r].samples != [] :: hs.series[r].labels := hs.series[r].samples
  }

  lemma ContentAt(hs: HeadState, r: Uint64)
    requires Distinct(hs) && r in hs.series
    ensures hs.series[r].labels in Content(hs) <==> hs.series[r].samples != []
    ensures hs.series[r].samples != [] ==> Content(hs)[hs.series[r].labels] == hs.series[r].samples
  {
    if hs.series[r].labels in Content(hs) {
      var q :| q in hs.series && hs.series[q].samples != [] && hs.series[q].labels == hs.series[r].labels;
    }
  }

  lemma ContentFrom(hs: HeadState, l: LabelList) returns (r: Uint64)
    requires Distinct(hs) && l in Content(hs)
    ensures r in hs.series && hs.series[r].samples != [] && hs.series[r].labels == l
    ensures Content(hs)[l] == hs.series[r].samples
  {
    r :| r in hs.series && hs.series[r].samples != [] && hs.series[r].labels == l;
    ContentAt(hs, r);
  }

  lemma AppendSampleContent(hash: Hash, hs: HeadState, ref: Uint64, t: Int64, v: Uint64)
    requires Consistent(hash, hs) && Distinct(hs) && ref in hs.series
    ensures Distinct(HeadSpec.AppendSample(hs, ref, t, v))
    ensures Content(HeadSpec.AppendSample(hs, ref, t, v)) == Put(Content(hs), Point(hs.series[ref].labels, t, v))
  {
    hide Consistent;
    hide Canonical;
    AppendSampleConsistent(hash, hs, ref, t, v);
    var a, b := Content(HeadSpec.AppendSample(hs, ref, t, v)), Put(Content(hs), Point(hs.series[ref].labels, t, v));
    hide Distinct;
    hide Content;
    hide HeadSpec.AppendSample;
    hide Put;
    forall m: LabelList ensures (m in a <==> m in b) && (m in a ==> a[m] == b[m]) {
      AppendSampleContentAt(hs, ref, t, v, m);
    }
    SameStore(a, b);
  }

  lemma SameStore(a: Store, b: Store)
    requires forall m: LabelList :: (m in a <==> m in b) && (m in a ==> a[m] == b[m])
    ensures a == b
  {
  }

  lemma AppendSampleContentAt(hs: HeadState, ref: Uint64, t: Int64, v: Uint64, m: LabelList)
    requires Distinct(hs) && ref in hs.series && Distinct(HeadSpec.AppendSample(hs, ref, t, v))
    ensures var a, b := Content(HeadSpec.AppendSample(hs, ref, t, v)), Put(Content(hs), Point(hs.series[ref].labels, t, v));
            (m in a <==> m in b) && (m in a ==> a[m] == b[m])
  {
    hide Content;
    var next, l := HeadSpec.AppendSample(hs, ref, t, v), hs.series[ref].labels;
    InsertedNonEmpty(hs.series[ref].samples, t, v);
    hide Inserted;
    ContentAt(hs, ref);
    ContentAt(next, ref);
    if m in Content(next) {
      var r := ContentFrom(next, m);
      ContentAt(hs, r);
    } else if m != l && m in Content(hs) {
      var r := ContentFrom(hs, m);
      ContentAt(next, r);
    }
  }

  lemma InsertedNonEmpty(s: seq<Sample>, t: Int64, v: Uint64)
    ensures Inserted(s, t, v) != []
  {
  }

  /** The points that staged samples stand for. */
  ghost function Points(hs: HeadState, ss: seq<RefSample>): (r: seq<Point>)
    requires forall i :: 0 <= i < |ss| ==> ss[i].ref in hs.series
    ensures |r| == |ss|
    ensures forall i :: 0 <= i < |ss| ==> r[i] == Point(hs.series[ss[i].ref].labels, ss[i].t, ss[i].v)
  {
    seq(|ss|, i requires 0 <= i < |ss| => Point(hs.series[ss[i].ref].labels, ss[i].t, ss[i].v))
  }

  lemma {:induction false} AppendAllContent(hash: Hash, hs: HeadState, ss: seq<RefSample>)
    requires Consistent(hash, hs) && Distinct(hs)
    requires forall i :: 0 <= i < |ss| ==> ss[i].ref in hs.series
    ensures Distinct(AppendAll(hs, ss))
    ensures Content(AppendAll(hs, ss)) == PutAll(Content(hs), Points(hs, ss))
    decreases ss
  {
    hide Consistent;
    hide Distinct;
    hide Content;
    hide Inserted;
    if ss != [] {
      var s := ss[0];
      var next := HeadSpec.AppendSample(hs, s.ref, s.t, s.v);
      AppendSampleConsistent(hash, hs, s.ref, s.t, s.v);
      AppendSampleContent(hash, hs, s.ref, s.t, s.v);
      AppendAllContent(hash, next, ss[1..]);
      var p := Point(hs.series[s.ref].labels, s.t, s.v);
      assert Points(hs, ss) == [p] + Points(next, ss[1..]);
      PutAllConcat(Content(hs), [p], Points(next, ss[1..]));
      assert [p][..0] == [];
      assert PutAll(Content(hs), [p]) == Put(Content(hs), p);
    }
  }

  // ---- The database between two calls, with at most one batch open ----

  datatype Config = Config(hash: Hash, crc: Checksum, maxSegSize: int, maxSeries: int)

  datatype Db = Db(head: HeadState, disk: Disk, newSeries: seq<NewSeries>, pending: seq<RefSample>)

  const FRESH: Db := Db(EMPTY_HEAD, Disk([], [], 0), [], [])

  function SeriesRecord(n: NewSeries): Record
    requires Encodable(n.labels)
  {
    Record(REC_SERIES, SeriesPayload(n.ref, n.labels))
  }

  function SeriesRecords(ns: seq<NewSeries>): (r: seq<Record>)
    requires forall i :: 0 <= i < |ns| ==> Encodable(ns[i].labels)
    ensures |r| == |ns|
  {
    if ns == [] then [] else SeriesRecords(ns[..|ns| - 1]) + [SeriesRecord(ns[|ns| - 1])]
  }

  /** The records a commit writes: each new series, then the samples. */
  function BatchRecords(ns: seq<NewSeries>, pending: seq<RefSample>): seq<Record>
    requires |pending| < TWO_63
    requires forall i :: 0 <= i < |ns| ==> Encodable(ns[i].labels)
  {
    SeriesRecords(ns) + if pending == [] then [] else [Record(REC_SAMPLES, SamplesPayload(pending))]
  }

  /** Every record of the batch has a payload length that 32 bits can hold. */
  ghost predicate BatchFits(ns: seq<NewSeries>, pending: seq<RefSample>) {
    && |pending| < TWO_63
    && (forall i :: 0 <= i < |ns| ==> Encodable(ns[i].labels))
    && forall i :: 0 <= i < |BatchRecords(ns, pending)| ==> |BatchRecords(ns, pending)[i].payload| < 0x1_0000_0000
  }

  datatype Event =
    | Append(labels: LabelList, t: Int64, v: Uint64)
    | Commit
    | Rollback
    /** A crash after `written` records of a commit were written (0: outside a commit), then a reopen. */
    | Crash(written: nat, cut: nat)

  /** The files when a crash strikes. */
  ghost function AtCrash(cfg: Config, db: Db, written: nat): Disk
    requires BatchFits(db.newSeries, db.pending) && written <= |BatchRecords(db.newSeries, db.pending)|
  {
    WrittenAll(cfg.crc, db.disk, cfg.maxSegSize, BatchRecords(db.newSeries, db.pending)[..written])
  }

  ghost predicate Enabled(cfg: Config, db: Db, e: Event) {
    match e
    case Append(ls, _, _) => Canonical(ls) && Encodable(ls) && db.head.lastRef + 1 < TWO_64
    case Commit => BatchFits(db.newSeries, db.pending)
    case Rollback => true
    case Crash(written, cut) =>
      && BatchFits(db.newSeries, db.pending)
      && written <= |BatchRecords(db.newSeries, db.pending)|
      && AtCrash(cfg, db, written).synced <= cut <= |AtCrash(cfg, db, written).cur|
  }

  function Appended(cfg: Config, db: Db, ls: LabelList, t: Int64, v: Uint64): Db
    requires db.head.lastRef + 1 < TWO_64
  {
    var a := Acquire(cfg.hash, db.head, ls, cfg.maxSeries);
    if !a.ok then db
    else db.(head := a.head,
             newSeries := if a.created then db.newSeries + [NewSeries(a.ref, ls)] else db.newSeries,
             pending := db.pending + [RefSample(a.ref, t, v)])
  }

  function Committed(cfg: Config, db: Db): Db
    requires |db.pending| < TWO_63
    requires forall i :: 0 <= i < |db.newSeries| ==> Encodable(db.newSeries[i].labels)
  {
    Db(AppendAll(db.head, db.pending),
       Synced(WrittenAll(cfg.crc, db.disk, cfg.maxSegSize, BatchRecords(db.newSeries, db.pending))), [], [])
  }

  function RolledBack(cfg: Config, db: Db): Db {
    Db(ReclaimEach(cfg.hash, db.head, db.newSeries), db.disk, [], [])
  }

  /** Open: replay what is on disk into an empty head, then open the repaired log. */
  function Reopened(cfg: Config, segs: seq<Bytes>): Db {
    var r := Replayed(cfg.crc, segs);
    Db(ApplyAll(cfg.hash, EMPTY_HEAD, r.ops), Opened(r.segs), [], [])
  }

  ghost function Next(cfg: Config, db: Db, e: Event): Db
    requires Enabled(cfg, db, e)
  {
    match e
    case Append(ls, t, v) => Appended(cfg, db, ls, t, v)
    case Commit => Committed(cfg, db)
    case Rollback => RolledBack(cfg, db)
    case Crash(written, cut) => Reopened(cfg, CrashImage(AtCrash(cfg, db, written), cut))
  }

  // ---- The invariant ----

  ghost function Logged(cfg: Config, disk: Disk): HeadState {
    ApplyAll(cfg.hash, EMPTY_HEAD, LogOps(cfg.crc, disk))
  }

  /** The live head is a given head plus the still empty series of the open batch, up to the ref counter. */
  ghost predicate Extends(hash: Hash, start: HeadState, db: Db) {
    var base := start.(lastRef := db.head.lastRef);
    && start.lastRef <= db.head.lastRef
    && Consistent(hash, base)
    && FreshFor(base, db.newSeries)
    && db.head == InsertAll(hash, base, db.newSeries)
    && Distinct(db.head)
    && (forall i :: 0 <= i < |db.newSeries| ==> Encodable(db.newSeries[i].labels))
    && (forall i :: 0 <= i < |db.pending| ==> db.pending[i].ref in db.head.series)
  }

  /** The log is whole and durable, and the live head extends its replay. */
  ghost predicate Inv(cfg: Config, db: Db) {
    && Intact(cfg.crc, db.disk)
    && db.disk.synced == |db.disk.cur|
    && Extends(cfg.hash, Logged(cfg, db.disk), db)
  }

  /** The points staged by the open batch. */
  ghost function Staged(db: Db): seq<Point>
    requires forall i :: 0 <= i < |db.pending| ==> db.pending[i].ref in db.head.series
  {
    Points(db.head, db.pending)
  }

  lemma ExtendsParts(hash: Hash, start: HeadState, db: Db)
    requires Extends(hash, start, db)
    ensures Consistent(hash, db.head) && Distinct(db.head)
    ensures forall i :: 0 <= i < |db.pending| ==> db.pending[i].ref in db.head.series
    ensures forall r :: r in start.series ==> r in db.head.series && db.head.series[r] == start.series[r]
    ensures Distinct(start)
  {
    hide Consistent;
    hide FreshFor;
    hide InsertAll;
    hide InBatch;
    InsertAllConsistent(hash, start.(lastRef := db.head.lastRef), db.newSeries);
  }

  lemma InvParts(cfg: Config, db: Db)
    requires Inv(cfg, db)
    ensures Consistent(cfg.hash, db.head) && Distinct(db.head)
    ensures forall i :: 0 <= i < |db.pending| ==> db.pending[i].ref in db.head.series
    ensures forall r :: r in Logged(cfg, db.disk).series ==>
                          r in db.head.series && db.head.series[r] == Logged(cfg, db.disk).series[r]
    ensures Distinct(Logged(cfg, db.disk))
  {
    hide Extends;
    ExtendsParts(cfg.hash, Logged(cfg, db.disk), db);
  }

  /** A new batch series holds nothing, so it does not show in the content. */
  lemma NewSeriesInvisible(hash: Hash, start: HeadState, db: Db)
    requires Extends(hash, start, db)
    ensures Distinct(db.head) && Distinct(start)
    ensures Content(db.head) == Content(start)
  {
    hide Consistent;
    hide InsertAll;
    ExtendsParts(hash, start, db);
    InsertAllConsistent(hash, start.(lastRef := db.head.lastRef), db.newSeries);
    forall r | r in db.head.series && r !in start.series ensures db.head.series[r].samples == [] {
      assert InBatch(db.newSeries, r);
      var i :| 0 <= i < |db.newSeries| && db.newSeries[i].ref == r;
    }
    SameContent(start, db.head);
  }

  lemma StagedInvisible(cfg: Config, db: Db)
    requires Inv(cfg, db)
    ensures Distinct(db.head) && Distinct(Logged(cfg, db.disk))
    ensures Content(db.head) == Content(Logged(cfg, db.disk))
  {
    hide Extends;
    hide Content;
    NewSeriesInvisible(cfg.hash, Logged(cfg, db.disk), db);
  }

  lemma SameContent(a: HeadState, b: HeadState)
    requires Distinct(a) && Distinct(b)
    requires forall r :: r in a.series ==> r in b.series && b.series[r] == a.series[r]
    requires forall r :: r in b.series && r !in a.series ==> b.series[r].samples == []
    ensures Content(a) == Content(b)
  {
    hide Content;
    hide Distinct;
    forall l | l in Content(a) ensures l in Content(b) && Content(a)[l] == Content(b)[l] {
      var r := ContentFrom(a, l);
      ContentAt(b, r);
    }
    forall l | l in Content(b) ensures l in Content(a) {
      var r := ContentFrom(b, l);
      ContentAt(a, r);
    }
  }

  // ---- Every call keeps the invariant ----

  lemma {:induction false} InsertAllLastRef(hash: Hash, hs: HeadState, ns: seq<NewSeries>, x: nat)
    ensures InsertAll(hash, hs.(lastRef := x), ns) == InsertAll(hash, hs, ns).(lastRef := x)
  {
    if ns != [] {
      InsertAllLastRef(hash, hs, ns[..|ns| - 1], x);
    }
  }

  lemma HigherLastRef(hash: Hash, hs: HeadState, x: nat)
    requires Consistent(hash, hs) && hs.lastRef <= x
    ensures Consistent(hash, hs.(lastRef := x))
  {
    hide InChain;
    hide P.Posted;
    hide Canonical;
    hide Ascending;
  }

  lemma CreatedKeepsBase(cfg: Config, base: HeadState, ns: seq<NewSeries>, ls: LabelList)
    requires Consistent(cfg.hash, base) && FreshFor(base, ns) && Canonical(ls) && base.lastRef + 1 < TWO_64
    ensures var ref := base.lastRef + 1;
            var head := InsertAll(cfg.hash, base, ns);
            && Consistent(cfg.hash, base.(lastRef := ref))
            && FreshFor(base.(lastRef := ref), ns + [NewSeries(ref, ls)])
            && HeadSpec.Insert(cfg.hash, head.(lastRef := ref), ref, ls) ==
               InsertAll(cfg.hash, base.(lastRef := ref), ns + [NewSeries(ref, ls)])
  {
    hide Canonical;
    var ref := base.lastRef + 1;
    HigherLastRef(cfg.hash, base, ref);
    assert ref !in base.series;
    hide Consistent;
    InsertAllLastRef(cfg.hash, base, ns, ref);
    var more := ns + [NewSeries(ref, ls)];
    assert more[..|ns|] == ns;
  }

  lemma AppendExtends(cfg: Config, start: HeadState, db: Db, ls: LabelList, t: Int64, v: Uint64)
    requires Extends(cfg.hash, start, db) && Enabled(cfg, db, Append(ls, t, v))
    ensures Extends(cfg.hash, start, Appended(cfg, db, ls, t, v))
    ensures var ok := Acquire(cfg.hash, db.head, ls, cfg.maxSeries).ok;
            Staged(Appended(cfg, db, ls, t, v)) == if ok then Staged(db) + [Point(ls, t, v)] else Staged(db)
  {
    hide Consistent;
    hide Canonical;
    hide Encodable;
    hide InsertAll;
    hide FreshFor;
    hide Distinct;
    hide Points;
    hide Find;
    hide HeadSpec.Insert;
    ExtendsParts(cfg.hash, start, db);
    AcquireConsistent(cfg.hash, db.head, ls, cfg.maxSeries);
    AcquireKeepsSeries(cfg.hash, db.head, ls, cfg.maxSeries);
    var a := Acquire(cfg.hash, db.head, ls, cfg.maxSeries);
    if a.created {
      CreatedKeepsBase(cfg, start.(lastRef := db.head.lastRef), db.newSeries, ls);
    }
    if a.ok {
      PointsKept(db.head, a.head, db.pending, RefSample(a.ref, t, v));
    }
  }

  lemma AcquireKeepsSeries(hash: Hash, hs: HeadState, ls: LabelList, limit: int)
    requires Consistent(hash, hs) && hs.lastRef + 1 < TWO_64
    ensures var a := Acquire(hash, hs, ls, limit);
            && (forall r :: r in hs.series ==> r in a.head.series && a.head.series[r] == hs.series[r])
            && (a.created ==> a.ref == hs.lastRef + 1)
            && a.head.lastRef == if a.created then a.ref else hs.lastRef
  {
    hide Consistent;
    hide Find;
    FreshRef(hash, hs);
    InsertKeepsSeries(hash, hs.(lastRef := hs.lastRef + 1), hs.lastRef + 1, ls);
    hide HeadSpec.Insert;
  }

  /** Growing a head does not change the points that are staged, and a sample of a series adds a point of its labels. */
  lemma PointsKept(before: HeadState, after: HeadState, pending: seq<RefSample>, s: RefSample)
    requires forall i :: 0 <= i < |pending| ==> pending[i].ref in before.series
    requires forall r :: r in before.series ==> r in after.series && after.series[r] == before.series[r]
    requires s.ref in after.series
    ensures Points(after, pending) == Points(before, pending)
    ensures Points(after, pending + [s]) == Points(before, pending) + [Point(after.series[s.ref].labels, s.t, s.v)]
  {
  }

  lemma AppendKeepsInv(cfg: Config, db: Db, ls: LabelList, t: Int64, v: Uint64)
    requires Inv(cfg, db) && Enabled(cfg, db, Append(ls, t, v))
    ensures Inv(cfg, Appended(cfg, db, ls, t, v))
    ensures var ok := Acquire(cfg.hash, db.head, ls, cfg.maxSeries).ok;
            Staged(Appended(cfg, db, ls, t, v)) == if ok then Staged(db) + [Point(ls, t, v)] else Staged(db)
  {
    hide Extends;
    hide Acquire;
    InvParts(cfg, db);
    AppendExtends(cfg, Logged(cfg, db.disk), db, ls, t, v);
  }

  lemma InsertKeepsSeries(hash: Hash, hs: HeadState, ref: Uint64, ls: LabelList)
    ensures HeadSpec.Insert(hash, hs, ref, ls).series == hs.series[ref := HeadSpec.Series(ls, [])]
    ensures HeadSpec.Insert(hash, hs, ref, ls).lastRef == hs.lastRef
  {
  }

  lemma FreshRef(hash: Hash, hs: HeadState)
    requires Consistent(hash, hs)
    ensures forall r :: r in hs.series ==> r <= hs.lastRef
  {
  }

  /** Rolling back leaves the given head, up to the ref counter. */
  lemma RollbackRestores(cfg: Config, start: HeadState, db: Db)
    requires Extends(cfg.hash, start, db)
    ensures Extends(cfg.hash, start, RolledBack(cfg, db))
    ensures RolledBack(cfg, db).head == start.(lastRef := db.head.lastRef)
  {
    hide Consistent;
    hide Canonical;
    ExtendsParts(cfg.hash, start, db);
    ReclaimUndoesBatch(cfg.hash, start.(lastRef := db.head.lastRef), db.newSeries);
  }

  lemma RollbackKeepsInv(cfg: Config, db: Db)
    requires Inv(cfg, db)
    ensures Inv(cfg, RolledBack(cfg, db))
    ensures RolledBack(cfg, db).head == Logged(cfg, db.disk).(lastRef := db.head.lastRef)
  {
    hide Extends;
    RollbackRestores(cfg, Logged(cfg, db.disk), db);
  }

  // ---- What a batch leaves in the log ----

  function SeriesOps(ns: seq<NewSeries>): (r: seq<Op>)
    ensures |r| == |ns|
  {
    if ns == [] then [] else SeriesOps(ns[..|ns| - 1]) + [AddSeries(ns[|ns| - 1].ref, ns[|ns| - 1].labels)]
  }

  function BatchOps(ns: seq<NewSeries>, pending: seq<RefSample>): seq<Op> {
    SeriesOps(ns) + if pending == [] then [] else [AddSamples(pending)]
  }

  lemma {:induction false} SeriesRecordsDecode(ns: seq<NewSeries>)
    requires forall i :: 0 <= i < |ns| ==> Encodable(ns[i].labels) && Canonical(ns[i].labels)
    ensures forall i :: 0 <= i < |ns| ==> Decoded(SeriesRecords(ns)[i]) == Some(SeriesOps(ns)[i])
  {
    hide Decoded;
    hide Canonical;
    hide Encodable;
    if ns != [] {
      SeriesRecordsDecode(ns[..|ns| - 1]);
      SeriesRecordDecodes(ns[|ns| - 1]);
    }
  }

  lemma SeriesRecordDecodes(n: NewSeries)
    requires Encodable(n.labels) && Canonical(n.labels)
    ensures Decoded(SeriesRecord(n)) == Some(AddSeries(n.ref, n.labels))
  {
    hide DecodedSeries;
    SeriesRoundTrip(n.ref, n.labels);
  }

  /** A batch that fits is written as records that decode to its effects. */
  lemma BatchWritable(ns: seq<NewSeries>, pending: seq<RefSample>)
    requires BatchFits(ns, pending)
    requires forall i :: 0 <= i < |ns| ==> Canonical(ns[i].labels)
    ensures AllWritable(BatchRecords(ns, pending))
    ensures Ops(BatchRecords(ns, pending)) == BatchOps(ns, pending)
  {
    hide Canonical;
    hide Encodable;
    hide SeriesRecords;
    hide SeriesOps;
    hide DecodedSamples;
    SeriesRecordsDecode(ns);
    if pending != [] {
      SamplesRoundTrip(pending);
    }
  }

  lemma {:induction false} ReplaySeriesOps(hash: Hash, base: HeadState, ns: seq<NewSeries>, x: nat)
    requires base.lastRef <= x && Consistent(hash, base.(lastRef := x)) && FreshFor(base.(lastRef := x), ns)
    ensures var r := ApplyAll(hash, base, SeriesOps(ns));
            r.lastRef <= x && r.(lastRef := x) == InsertAll(hash, base.(lastRef := x), ns)
  {
    hide Consistent;
    hide Canonical;
    hide InBatch;
    hide HeadSpec.Insert;
    if ns != [] {
      var front, last := ns[..|ns| - 1], ns[|ns| - 1];
      ReplaySeriesOps(hash, base, front, x);
      InsertAllConsistent(hash, base.(lastRef := x), front);
      NotInFront(ns);
      var ops := SeriesOps(ns);
      assert ops[..|ops| - 1] == SeriesOps(front);
      var r := ApplyAll(hash, base, SeriesOps(front));
      InsertLastRef(hash, r, last.ref, last.labels, x);
    }
  }

  lemma InsertLastRef(hash: Hash, hs: HeadState, ref: Uint64, ls: LabelList, x: nat)
    ensures HeadSpec.Insert(hash, hs.(lastRef := x), ref, ls) == HeadSpec.Insert(hash, hs, ref, ls).(lastRef := x)
    ensures HeadSpec.Insert(hash, hs, ref, ls).lastRef == hs.lastRef
  {
  }

  lemma {:induction false} AppendAllLastRef(hs: HeadState, ss: seq<RefSample>, x: nat)
    ensures AppendAll(hs.(lastRef := x), ss) == AppendAll(hs, ss).(lastRef := x)
    ensures AppendAll(hs, ss).lastRef == hs.lastRef
    decreases ss
  {
    hide Inserted;
    if ss != [] {
      AppendAllLastRef(HeadSpec.AppendSample(hs, ss[0].ref, ss[0].t, ss[0].v), ss[1..], x);
    }
  }

  lemma {:induction false} SeriesOpsPrefix(ns: seq<NewSeries>, m: nat)
    requires m <= |ns|
    ensures SeriesOps(ns)[..m] == SeriesOps(ns[..m])
  {
    if m < |ns| {
      SeriesOpsPrefix(ns[..|ns| - 1], m);
      assert ns[..|ns| - 1][..m] == ns[..m];
    } else {
      assert ns[..m] == ns;
    }
  }

  /** The head that replay rebuilds from the log and the first m effects of the batch. */
  lemma ReplayOfBatch(cfg: Config, db: Db, m: nat)
    requires Inv(cfg, db) && m <= |BatchOps(db.newSeries, db.pending)|
    ensures var h := ApplyAll(cfg.hash, Logged(cfg, db.disk), BatchOps(db.newSeries, db.pending)[..m]);
            var base := Logged(cfg, db.disk).(lastRef := db.head.lastRef);
            && h.lastRef <= db.head.lastRef
            && h.(lastRef := db.head.lastRef) ==
               if m <= |db.newSeries| then InsertAll(cfg.hash, base, db.newSeries[..m]) else AppendAll(db.head, db.pending)
  {
    hide Consistent;
    hide Canonical;
    hide InsertAll;
    hide LogOps;
    hide Intact;
    hide Distinct;
    var ns, x := db.newSeries, db.head.lastRef;
    var ops := BatchOps(ns, db.pending);
    var logged := Logged(cfg, db.disk);
    SeriesOpsPrefix(ns, if m <= |ns| then m else |ns|);
    if m <= |ns| {
      assert ops[..m] == SeriesOps(ns)[..m];
      ReplaySeriesOps(cfg.hash, logged, ns[..m], x);
    } else {
      assert ns[..|ns|] == ns && ops[..m] == SeriesOps(ns) + [AddSamples(db.pending)];
      ReplaySeriesOps(cfg.hash, logged, ns, x);
      ApplySnoc(cfg.hash, logged, SeriesOps(ns), AddSamples(db.pending));
      AppendAllLastRef(ApplyAll(cfg.hash, logged, SeriesOps(ns)), db.pending, x);
    }
  }

  lemma ApplySnoc(hash: Hash, hs: HeadState, ops: seq<Op>, op: Op)
    ensures ApplyAll(hash, hs, ops + [op]) == ApplyOp(hash, ApplyAll(hash, hs, ops), op)
  {
    assert (ops + [op])[..|ops|] == ops;
  }

  lemma PrefixStaysFresh(hs: HeadState, ns: seq<NewSeries>, m: nat)
    requires FreshFor(hs, ns) && m <= |ns|
    ensures FreshFor(hs, ns[..m])
  {
    hide Canonical;
  }

  // ---- Commit ----

  lemma NewSeriesCanonical(cfg: Config, db: Db)
    requires Inv(cfg, db)
    ensures forall i :: 0 <= i < |db.newSeries| ==> Canonical(db.newSeries[i].labels)
  {
  }

  lemma {:induction false} FlatOpsWellFormed(crc: Checksum, segs: seq<Bytes>)
    ensures forall i :: 0 <= i < |FlatOps(crc, segs)| ==> OpWellFormed(FlatOps(crc, segs)[i])
  {
    hide OpWellFormed;
    hide Scanned;
    if segs != [] {
      FlatOpsWellFormed(crc, segs[..|segs| - 1]);
      ScannedWellFormed(crc, segs[|segs| - 1]);
    }
  }

  /** Whatever the log holds, its replay has consistent tables. */
  lemma LoggedConsistent(cfg: Config, disk: Disk)
    ensures Consistent(cfg.hash, Logged(cfg, disk))
  {
    hide OpWellFormed;
    hide Scanned;
    hide FlatOps;
    FlatOpsWellFormed(cfg.crc, disk.closed);
    ScannedWellFormed(cfg.crc, disk.cur);
    assert Consistent(cfg.hash, EMPTY_HEAD);
    ApplyAllConsistent(cfg.hash, EMPTY_HEAD, LogOps(cfg.crc, disk));
  }

  lemma LoggedAfterBatch(cfg: Config, d: Disk, e: Disk, ops: seq<Op>)
    requires LogOps(cfg.crc, e) == LogOps(cfg.crc, d) + ops
    ensures Logged(cfg, e) == ApplyAll(cfg.hash, Logged(cfg, d), ops)
  {
    ApplyAllConcat(cfg.hash, EMPTY_HEAD, LogOps(cfg.crc, d), ops);
  }

  /** Commit keeps the invariant and adds exactly the staged points to the content. */
  lemma CommitKeepsInv(cfg: Config, db: Db)
    requires Inv(cfg, db) && Enabled(cfg, db, Commit)
    ensures Inv(cfg, Committed(cfg, db))
    ensures Distinct(db.head) && Distinct(Committed(cfg, db).head)
    ensures Content(Committed(cfg, db).head) == PutAll(Content(db.head), Staged(db))
  {
    hide Consistent;
    hide Canonical;
    hide Encodable;
    hide InsertAll;
    hide ApplyAll;
    hide Intact;
    hide LogOps;
    hide Distinct;
    hide BatchRecords;
    hide Content;
    hide AppendAll;
    InvParts(cfg, db);
    NewSeriesCanonical(cfg, db);
    var rs, ops := BatchRecords(db.newSeries, db.pending), BatchOps(db.newSeries, db.pending);
    BatchWritable(db.newSeries, db.pending);
    WrittenAllExact(cfg.crc, db.disk, cfg.maxSegSize, rs);
    var next := Committed(cfg, db);
    SyncedExact(cfg.crc, WrittenAll(cfg.crc, db.disk, cfg.maxSegSize, rs));
    LoggedAfterBatch(cfg, db.disk, next.disk, ops);
    WholeBatchReplay(cfg, db);
    AppendAllConsistent(cfg.hash, db.head, db.pending);
    AppendAllContent(cfg.hash, db.head, db.pending);
    NothingInserted(cfg, Logged(cfg, next.disk).(lastRef := next.head.lastRef));
  }

  lemma NothingInserted(cfg: Config, hs: HeadState)
    ensures InsertAll(cfg.hash, hs, []) == hs && FreshFor(hs, [])
  {
  }

  lemma WholeBatchReplay(cfg: Config, db: Db)
    requires Inv(cfg, db)
    ensures var h := ApplyAll(cfg.hash, Logged(cfg, db.disk), BatchOps(db.newSeries, db.pending));
            h.lastRef <= db.head.lastRef && h.(lastRef := db.head.lastRef) == AppendAll(db.head, db.pending)
  {
    hide Consistent;
    hide Intact;
    hide ApplyAll;
    hide InsertAll;
    hide Logged;
    hide Distinct;
    var ops := BatchOps(db.newSeries, db.pending);
    ReplayOfBatch(cfg, db, |ops|);
    assert ops[..|ops|] == ops;
    if db.pending == [] {
      assert db.newSeries[..|ops|] == db.newSeries;
      assert db.head == InsertAll(cfg.hash, Logged(cfg, db.disk).(lastRef := db.head.lastRef), db.newSeries);
    }
  }

  // ---- Crash ----

  /** How many effects of the open batch a crash leaves in the log. */
  ghost function Survivors(cfg: Config, db: Db, written: nat, cut: nat): int
    requires Enabled(cfg, db, Crash(written, cut))
  {
    |Replayed(cfg.crc, CrashImage(AtCrash(cfg, db, written), cut)).ops| - |LogOps(cfg.crc, db.disk)|
  }

  lemma Between<T>(base: seq<T>, extra: seq<T>, r: seq<T>)
    requires StartsWith(base + extra, r) && StartsWith(r, base)
    ensures |r| - |base| <= |extra| && r == base + extra[..|r| - |base|]
  {
    assert r[..|base|] == base;
    forall i | 0 <= i < |r| ensures r[i] == (base + extra[..|r| - |base|])[i] {
      assert r[i] == (base + extra)[i];
    }
  }

  lemma SyncedIsDurable(crc: Checksum, d: Disk)
    requires d.synced == |d.cur|
    ensures DurableOps(crc, d) == LogOps(crc, d)
  {
    hide Scanned;
    assert d.cur[..|d.cur|] == d.cur;
  }

  lemma OpsPrefix(rs: seq<Record>, w: nat)
    requires AllWritable(rs) && w <= |rs|
    ensures AllWritable(rs[..w]) && Ops(rs[..w]) == Ops(rs)[..w]
  {
    hide Decoded;
  }

  /** A crash recovers the log of the earlier calls and the first few effects of the open batch, no others. */
  lemma CrashRecovers(cfg: Config, db: Db, written: nat, cut: nat)
    requires Inv(cfg, db) && Enabled(cfg, db, Crash(written, cut))
    ensures var next := Reopened(cfg, CrashImage(AtCrash(cfg, db, written), cut));
            var m := Survivors(cfg, db, written, cut);
            && 0 <= m <= written <= |BatchOps(db.newSeries, db.pending)|
            && next.head == ApplyAll(cfg.hash, Logged(cfg, db.disk), BatchOps(db.newSeries, db.pending)[..m])
            && next.head == Logged(cfg, next.disk)
            && Intact(cfg.crc, next.disk) && next.disk.synced == |next.disk.cur|
  {
    hide Consistent;
    hide Canonical;
    hide Encodable;
    hide Intact;
    hide ApplyAll;
    hide InsertAll;
    hide LogOps;
    hide DurableOps;
    hide BatchRecords;
    hide Distinct;
    hide FreshFor;
    hide Replayed;
    hide Written;
    hide StartsWith;
    var ns, pending := db.newSeries, db.pending;
    var rs, ops := BatchRecords(ns, pending), BatchOps(ns, pending);
    var d := AtCrash(cfg, db, written);
    NewSeriesCanonical(cfg, db);
    BatchWritable(ns, pending);
    OpsPrefix(rs, written);
    WrittenAllExact(cfg.crc, db.disk, cfg.maxSegSize, rs[..written]);
    CrashAndReopen(cfg.crc, d, cut);
    var r := Replayed(cfg.crc, CrashImage(d, cut));
    SyncedIsDurable(cfg.crc, db.disk);
    StartsWithTrans(r.ops, DurableOps(cfg.crc, d), LogOps(cfg.crc, db.disk));
    Between(LogOps(cfg.crc, db.disk), ops[..written], r.ops);
    var m := Survivors(cfg, db, written, cut);
    assert r.ops == LogOps(cfg.crc, db.disk) + ops[..m] by {
      assert |r.ops| - |LogOps(cfg.crc, db.disk)| == m;
      assert m >= 0 by {
        StartsWithLonger(r.ops, LogOps(cfg.crc, db.disk));
      }
      assert ops[..written][..m] == ops[..m];
    }
    LoggedAfterBatch(cfg, db.disk, Opened(r.segs), ops[..m]);
  }

  lemma StartsWithLonger<T>(whole: seq<T>, start: seq<T>)
    requires StartsWith(whole, start)
    ensures |start| <= |whole|
  {
  }

  /** Whether the samples of the batch that was being committed survived the crash. */
  ghost predicate Survived(cfg: Config, db: Db, written: nat, cut: nat)
    requires Enabled(cfg, db, Crash(written, cut))
  {
    Survivors(cfg, db, written, cut) > |db.newSeries|
  }

  lemma SubsetDistinct(a: HeadState, b: HeadState)
    requires Distinct(b)
    requires forall r :: r in a.series ==> r in b.series && b.series[r].labels == a.series[r].labels
    ensures Distinct(a)
  {
  }

  lemma PartOfBatch(cfg: Config, db: Db, m: nat)
    requires Inv(cfg, db) && m <= |db.newSeries|
    ensures var part := InsertAll(cfg.hash, Logged(cfg, db.disk).(lastRef := db.head.lastRef), db.newSeries[..m]);
            && Distinct(part) && Distinct(db.head)
            && Content(part) == Content(db.head)
  {
    hide Consistent;
    hide Canonical;
    hide ApplyAll;
    hide InsertAll;
    hide Intact;
    hide InBatch;
    hide Content;
    var base := Logged(cfg, db.disk).(lastRef := db.head.lastRef);
    PrefixStaysFresh(base, db.newSeries, m);
    InsertAllConsistent(cfg.hash, base, db.newSeries);
    InsertAllConsistent(cfg.hash, base, db.newSeries[..m]);
    var part := InsertAll(cfg.hash, base, db.newSeries[..m]);
    forall r | r in part.series ensures r in db.head.series && db.head.series[r] == part.series[r] {
      InBatchPrefix(db.newSeries, m, r);
    }
    forall r | r in db.head.series && r !in part.series ensures db.head.series[r].samples == [] {
      InBatchPrefix(db.newSeries, m, r);
    }
    SubsetDistinct(part, db.head);
    SameContent(part, db.head);
  }

  lemma InBatchPrefix(ns: seq<NewSeries>, m: nat, r: Uint64)
    requires m <= |ns|
    ensures InBatch(ns[..m], r) ==> InBatch(ns, r) && exists i :: 0 <= i < m && ns[i].ref == r && ns[..m][i].ref == r
    ensures InBatch(ns, r) ==> exists i :: 0 <= i < |ns| && ns[i].ref == r
  {
    if InBatch(ns[..m], r) {
      var i :| 0 <= i < |ns[..m]| && ns[..m][i].ref == r;
      assert ns[i].ref == r;
    }
  }

  lemma LastRefDoesNotShow(hs: HeadState, x: nat)
    ensures Distinct(hs.(lastRef := x)) <==> Distinct(hs)
    ensures Distinct(hs) ==> Content(hs.(lastRef := x)) == Content(hs)
  {
  }

  /** A crash at any byte keeps the invariant; the content is that of before, with all or none of the batch. */
  lemma CrashKeepsInv(cfg: Config, db: Db, written: nat, cut: nat)
    requires Inv(cfg, db) && Enabled(cfg, db, Crash(written, cut))
    ensures var next := Reopened(cfg, CrashImage(AtCrash(cfg, db, written), cut));
            && Inv(cfg, next)
            && Distinct(db.head) && Distinct(next.head)
            && Content(next.head) == if Survived(cfg, db, written, cut) then PutAll(Content(db.head), Staged(db))
                                     else Content(db.head)
  {
    hide Consistent;
    hide Canonical;
    hide Encodable;
    hide Intact;
    hide ApplyAll;
    hide InsertAll;
    hide LogOps;
    hide BatchRecords;
    hide Distinct;
    hide Content;
    hide AppendAll;
    hide Replayed;
    hide AtCrash;
    var next := Reopened(cfg, CrashImage(AtCrash(cfg, db, written), cut));
    var m := Survivors(cfg, db, written, cut);
    CrashRecovers(cfg, db, written, cut);
    ReplayOfBatch(cfg, db, m);
    InvParts(cfg, db);
    if m <= |db.newSeries| {
      PartOfBatch(cfg, db, m);
    } else {
      AppendAllConsistent(cfg.hash, db.head, db.pending);
      AppendAllContent(cfg.hash, db.head, db.pending);
    }
    LastRefDoesNotShow(next.head, db.head.lastRef);
    LoggedConsistent(cfg, next.disk);
    assert Logged(cfg, next.disk).(lastRef := next.head.lastRef) == next.head;
    NothingInserted(cfg, next.head);
  }

  // ---- Whole runs ----

  /** A database with the points of the batches that took effect: committed, or survived a crash in their commit. */
  datatype History = History(db: Db, committed: seq<Point>)

  /** One call or crash; a call the configuration does not admit changes nothing. */
  ghost function Advance(cfg: Config, h: History, e: Event): History
    requires Inv(cfg, h.db)
  {
    if !Enabled(cfg, h.db, e) then h
    else
      var takesEffect := e.Commit? || (e.Crash? && Survived(cfg, h.db, e.written, e.cut));
      History(Next(cfg, h.db, e), if takesEffect then h.committed + Staged(h.db) else h.committed)
  }

  /** The content is exactly the committed points, first write of a timestamp first. */
  ghost predicate Durable(cfg: Config, h: History) {
    Inv(cfg, h.db) && Distinct(h.db.head) && Content(h.db.head) == PutAll(map[], h.committed)
  }

  lemma AdvanceDurable(cfg: Config, h: History, e: Event)
    requires Durable(cfg, h)
    ensures Durable(cfg, Advance(cfg, h, e))
  {
    hide Inv;
    hide AtCrash;
    hide BatchFits;
    hide Encodable;
    hide Canonical;
    hide Distinct;
    hide Content;
    hide Survived;
    hide Put;
    if Enabled(cfg, h.db, e) {
      var staged := Staged(h.db) by {
        InvParts(cfg, h.db);
      }
      PutAllConcat(map[], h.committed, staged);
      match e {
        case Append(ls, t, v) =>
          AppendKeepsInv(cfg, h.db, ls, t, v);
          StagedInvisible(cfg, h.db);
          StagedInvisible(cfg, Appended(cfg, h.db, ls, t, v));
          SameDisk(cfg, h.db, ls, t, v);
        case Commit =>
          CommitKeepsInv(cfg, h.db);
        case Rollback =>
          RollbackKeepsInv(cfg, h.db);
          StagedInvisible(cfg, h.db);
          StagedInvisible(cfg, RolledBack(cfg, h.db));
        case Crash(written, cut) =>
          CrashKeepsInv(cfg, h.db, written, cut);
      }
    }
  }

  lemma SameDisk(cfg: Config, db: Db, ls: LabelList, t: Int64, v: Uint64)
    requires db.head.lastRef + 1 < TWO_64
    ensures Appended(cfg, db, ls, t, v).disk == db.disk
  {
  }

  lemma FreshDurable(cfg: Config)
    ensures Durable(cfg, History(FRESH, []))
  {
    hide Consistent;
    hide Scanned;
    hide Content;
    EmptyScan(cfg.crc);
    assert LogOps(cfg.crc, FRESH.disk) == [];
    assert Logged(cfg, FRESH.disk) == EMPTY_HEAD;
    LoggedConsistent(cfg, FRESH.disk);
    EmptyContent();
  }

  lemma EmptyContent()
    ensures Distinct(EMPTY_HEAD) && Content(EMPTY_HEAD) == map[]
  {
  }

  ghost function Run(cfg: Config, events: seq<Event>): (h: History)
    ensures Durable(cfg, h)
  {
    if events == [] then
      FreshDurable(cfg);
      History(FRESH, [])
    else
      AdvanceDurable(cfg, Run(cfg, events[..|events| - 1]), events[|events| - 1]);
      Advance(cfg, Run(cfg, events[..|events| - 1]), events[|events| - 1])
  }

  /** What has taken effect stays: later calls and crashes only add to it. */
  lemma {:induction false} CommittedStays(cfg: Config, events: seq<Event>, more: seq<Event>)
    ensures StartsWith(Run(cfg, events + more).committed, Run(cfg, events).committed)
  {
    hide Durable;
    hide Next;
    hide Enabled;
    hide Survived;
    if more == [] {
      assert events + more == events;
    } else {
      CommittedStays(cfg, events, more[..|more| - 1]);
      assert (events + more)[..|events + more| - 1] == events + more[..|more| - 1];
    }
  }

  /**
   * Crash recovery: after any run, a crash at any byte of the unsynced tail and a reopen yield a head that holds
   * exactly the points of the batches that had taken effect, plus all or none of those of the batch in flight;
   * and a commit that returned has made its whole batch part of what no later crash can lose.
   */
  lemma CrashRecovery(cfg: Config, events: seq<Event>, written: nat, cut: nat)
    requires Enabled(cfg, Run(cfg, events).db, Crash(written, cut))
    ensures var before, after := Run(cfg, events), Run(cfg, events + [Crash(written, cut)]);
            && Distinct(after.db.head)
            && (Content(after.db.head) == PutAll(map[], before.committed)
                || Content(after.db.head) == PutAll(map[], before.committed + Staged(before.db)))
  {
    hide Next;
    hide Enabled;
    hide Survived;
    hide Content;
    hide Inv;
    assert (events + [Crash(written, cut)])[..|events|] == events;
  }

  lemma CommitIsDurable(cfg: Config, events: seq<Event>, more: seq<Event>)
    requires Enabled(cfg, Run(cfg, events).db, Commit)
    ensures StartsWith(Run(cfg, events + [Commit] + more).committed, Run(cfg, events).committed + Staged(Run(cfg, events).db))
  {
    hide Next;
    hide Enabled;
    hide Survived;
    hide Inv;
    assert (events + [Commit])[..|events|] == events;
    CommittedStays(cfg, events + [Commit], more);
  }

  /** With no batch open, the live head is the replay of the log, up to the ref counter. */
  lemma LiveHeadIsReplay(cfg: Config, events: seq<Event>)
    requires Run(cfg, events).db.newSeries == []
    ensures var db := Run(cfg, events).db; db.head == Logged(cfg, db.disk).(lastRef := db.head.lastRef)
  {
  }

  /** A batch whose samples had not been written when the crash struck is lost, and nothing else. */
  lemma UnwrittenIsLost(cfg: Config, events: seq<Event>, written: nat, cut: nat)
    requires Enabled(cfg, Run(cfg, events).db, Crash(written, cut))
    requires written <= |Run(cfg, events).db.newSeries|
    ensures Run(cfg, events + [Crash(written, cut)]).committed == Run(cfg, events).committed
  {
    hide Next;
    hide Enabled;
    hide Content;
    hide Inv;
    assert (events + [Crash(written, cut)])[..|events|] == events;
    CrashRecovers(cfg, Run(cfg, events).db, written, cut);
    hide Survivors;
  }

  /** A batch that had been written completely, and of which the crash took nothing, is kept as a whole. */
  lemma WrittenIsKept(cfg: Config, events: seq<Event>, cut: nat)
    requires var db := Run(cfg, events).db;
             && BatchFits(db.newSeries, db.pending)
             && cut == |AtCrash(cfg, db, |BatchRecords(db.newSeries, db.pending)|).cur|
             && Enabled(cfg, db, Crash(|BatchRecords(db.newSeries, db.pending)|, cut))
    ensures var before := Run(cfg, events);
            var all := |BatchRecords(before.db.newSeries, before.db.pending)|;
            Run(cfg, events + [Crash(all, cut)]).committed == before.committed + Staged(before.db)
  {
    var h := Run(cfg, events);
    var all := |BatchRecords(h.db.newSeries, h.db.pending)|;
    assert (events + [Crash(all, cut)])[..|events|] == events;
    assert Run(cfg, events + [Crash(all, cut)]) == Advance(cfg, h, Crash(all, cut));
    WrittenTakesEffect(cfg, h, cut);
    hide *;
  }

  lemma WrittenTakesEffect(cfg: Config, h: History, cut: nat)
    requires Inv(cfg, h.db) && BatchFits(h.db.newSeries, h.db.pending)
    requires var all := |BatchRecords(h.db.newSeries, h.db.pending)|;
             cut == |AtCrash(cfg, h.db, all).cur| && Enabled(cfg, h.db, Crash(all, cut))
    ensures Advance(cfg, h, Crash(|BatchRecords(h.db.newSeries, h.db.pending)|, cut)).committed == h.committed + Staged(h.db)
  {
    AllSurvive(cfg, h.db, cut);
    InvParts(cfg, h.db);
    assert h.db.pending == [] ==> h.committed + Staged(h.db) == h.committed;
    hide Next;
    hide Enabled;
    hide Survivors;
    hide Inv;
    hide BatchRecords;
  }

  lemma AllSurvive(cfg: Config, db: Db, cut: nat)
    requires Inv(cfg, db) && BatchFits(db.newSeries, db.pending)
    requires var all := |BatchRecords(db.newSeries, db.pending)|;
             cut == |AtCrash(cfg, db, all).cur| && Enabled(cfg, db, Crash(all, cut))
    ensures var all := |BatchRecords(db.newSeries, db.pending)|;
            Survivors(cfg, db, all, cut) == |db.newSeries| + if db.pending == [] then 0 else 1
  {
    hide Canonical;
    hide Encodable;
    hide Consistent;
    hide InsertAll;
    hide ApplyAll;
    var rs := BatchRecords(db.newSeries, db.pending);
    var d := AtCrash(cfg, db, |rs|);
    assert rs[..|rs|] == rs;
    NewSeriesCanonical(cfg, db);
    BatchWritable(db.newSeries, db.pending);
    hide BatchRecords;
    WrittenAllExact(cfg.crc, db.disk, cfg.maxSegSize, rs);
    assert d.cur[..|d.cur|] == d.cur;
    ReplayOfClean(cfg.crc, d.closed, d.cur);
    hide Replayed;
  }
}
