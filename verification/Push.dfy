/** Push ingestion: one request is one batch, applied as a whole or not at all. */
module Push {
  import opened Base
  import opened Labels
  import opened HeadSpec
  import opened HeadBatch
  import opened WalCodec
  import opened Recovery
  import Database
  import Exposition

  datatype SamplePoint = SamplePoint(t: Int64, v: Uint64)

  /** A metric with extra labels, and either one shorthand value or explicit samples. */
  datatype SeriesInput = SeriesInput(
    name: Bytes, labels: map<Bytes, Bytes>, value: Option<Uint64>, samples: seq<SamplePoint>)

  datatype Request = Request(job: Bytes, instance: Bytes, series: seq<SeriesInput>)

  datatype Outcome =
    | BadData
    | OverLimit
    | TooManySeries
    | Done(seriesTouched: nat, samplesAppended: nat)

  /** The bytes of "job" and "instance". */
  const JOB: Bytes := [106, 111, 98]
  const INSTANCE: Bytes := [105, 110, 115, 116, 97, 110, 99, 101]

  const RESERVED: set<Bytes> := {METRIC_NAME, JOB, INSTANCE}

  predicate IsBlank(s: Bytes) { forall i :: 0 <= i < |s| ==> Exposition.IsTrimmed(s[i]) }

  /** Client labels are checked unless reserved; a reserved name is overridden, not rejected. */
  predicate LabelNameOk(n: Bytes) {
    n in RESERVED || (!([95, 95] <= n) && Exposition.ValidLabelName(n))
  }

  predicate InputOk(s: SeriesInput) {
    && Exposition.ValidMetricName(s.name)
    && (s.value.Some? <==> s.samples == [])
    && forall n :: n in s.labels ==> LabelNameOk(n)
  }

  predicate RequestOk(r: Request) {
    && !IsBlank(r.job)
    && r.series != []
    && forall i :: 0 <= i < |r.series| ==> InputOk(r.series[i])
  }

  /** The stored labels: the client's, overridden by the metric name and the server-owned job and instance. */
  function LabelMap(s: SeriesInput, job: Bytes, instance: Bytes): map<Bytes, Bytes> {
    (s.labels - RESERVED)[METRIC_NAME := s.name][JOB := job][INSTANCE := instance]
  }

  /** The samples of one input; time 0 stands for the time of the request. */
  function SamplePoints(s: SeriesInput, now: Int64): seq<SamplePoint> {
    match s.value
    case Some(v) => [SamplePoint(now, v)]
    case None => Stamped(s.samples, now)
  }

  function Stamped(ps: seq<SamplePoint>, now: Int64): (r: seq<SamplePoint>)
    ensures |r| == |ps|
    ensures forall i :: 0 <= i < |ps| ==> r[i] == if ps[i].t == 0 then ps[i].(t := now) else ps[i]
  {
    seq(|ps|, i requires 0 <= i < |ps| => if ps[i].t == 0 then ps[i].(t := now) else ps[i])
  }

  function SampleCount(series: seq<SeriesInput>): nat {
    if series == [] then 0
    else SampleCount(series[..|series| - 1]) +
         if series[|series| - 1].value.Some? then 1 else |series[|series| - 1].samples|
  }

  ghost function Listing(m: map<Bytes, Bytes>): (ls: LabelList)
    ensures LastWins(ls) == m
    decreases |m.Keys|
  {
    if m == map[] then []
    else
      var k :| k in m;
      assert |(m - {k}).Keys| < |m.Keys| by { assert (m - {k}).Keys == m.Keys - {k}; }
      var rest := Listing(m - {k});
      assert (rest + [Label(k, m[k])])[..|rest|] == rest;
      rest + [Label(k, m[k])]
  }

  ghost function LabelsOf(s: SeriesInput, job: Bytes, instance: Bytes): (ls: LabelList)
    ensures Canonical(ls) && LastWins(ls) == LabelMap(s, job, instance)
  {
    NormalizedIsCanonical(Listing(LabelMap(s, job, instance)));
    Normalized(Listing(LabelMap(s, job, instance)))
  }

  /** All points of a request, in order. */
  ghost function PointsOf(ls: LabelList, ps: seq<SamplePoint>): (r: seq<Point>)
    ensures |r| == |ps| && forall i :: 0 <= i < |ps| ==> r[i] == Point(ls, ps[i].t, ps[i].v)
  {
    seq(|ps|, i requires 0 <= i < |ps| => Point(ls, ps[i].t, ps[i].v))
  }

  ghost function RequestPoints(series: seq<SeriesInput>, job: Bytes, instance: Bytes, now: Int64): seq<Point> {
    if series == [] then []
    else RequestPoints(series[..|series| - 1], job, instance, now) +
         PointsOf(LabelsOf(series[|series| - 1], job, instance), SamplePoints(series[|series| - 1], now))
  }

  // ---- Staging a batch ----

  /** The state after appending points up to the first refusal, and whether there was none. */
  datatype Staging = Staging(db: Recovery.Db, ok: bool)

  ghost function StageAll(cfg: Config, db: Recovery.Db, ps: seq<Point>): (s: Staging)
    requires db.head.lastRef + |ps| < TWO_64
    ensures s.db.head.lastRef <= db.head.lastRef + |ps|
  {
    if ps == [] then Staging(db, true)
    else
      var s, p := StageAll(cfg, db, ps[..|ps| - 1]), ps[|ps| - 1];
      if !s.ok then s
      else Staging(Appended(cfg, s.db, p.labels, p.t, p.v), Acquire(cfg.hash, s.db.head, p.labels, cfg.maxSeries).ok)
  }

  ghost predicate PointsOk(ps: seq<Point>) {
    forall i :: 0 <= i < |ps| ==> Canonical(ps[i].labels) && Encodable(ps[i].labels)
  }

  lemma {:induction false} StageAllExtends(cfg: Config, start: HeadState, db: Recovery.Db, ps: seq<Point>)
    requires Extends(cfg.hash, start, db) && PointsOk(ps) && db.head.lastRef + |ps| < TWO_64
    ensures var s := StageAll(cfg, db, ps);
            && Extends(cfg.hash, start, s.db)
            && s.db.disk == db.disk
            && (s.ok ==> Staged(s.db) == Staged(db) + ps)
  {
    hide Extends;
    hide Canonical;
    hide Encodable;
    hide Acquire;
    hide Distinct;
    hide Consistent;
    ExtendsParts(cfg.hash, start, db);
    if ps != [] {
      var front, p := ps[..|ps| - 1], ps[|ps| - 1];
      StageAllExtends(cfg, start, db, front);
      var s := StageAll(cfg, db, front);
      ExtendsParts(cfg.hash, start, s.db);
      if s.ok {
        AppendExtends(cfg, start, s.db, p.labels, p.t, p.v);
        assert Staged(db) + ps == Staged(db) + front + [p];
      }
    }
  }

  /** No batch is open, and series and tables are as they should be. */
  ghost predicate Ready(cfg: Config, db: Recovery.Db) {
    Consistent(cfg.hash, db.head) && Distinct(db.head) && db.newSeries == [] && db.pending == []
  }

  lemma ReadyExtends(cfg: Config, db: Recovery.Db)
    requires Ready(cfg, db)
    ensures Extends(cfg.hash, db.head, db) && Staged(db) == []
  {
    hide Consistent;
    NothingInserted(cfg, db.head);
  }

  /** What a committed batch leaves in the head. */
  function Applied(db: Recovery.Db): HeadState { AppendAll(db.head, db.pending) }

  /**
   * From a state with no open batch, with or without a log: if every point is accepted, applying the batch adds exactly
   * these points to the content; if one is refused, rolling back restores the head exactly, up to the ref counter.
   */
  lemma BatchAllOrNothing(cfg: Config, db: Recovery.Db, ps: seq<Point>)
    requires Ready(cfg, db) && PointsOk(ps) && db.head.lastRef + |ps| < TWO_64
    ensures var s := StageAll(cfg, db, ps);
            && s.db.disk == db.disk
            && RolledBack(cfg, s.db).head == db.head.(lastRef := s.db.head.lastRef)
            && (s.ok ==> Distinct(Applied(s.db)) && Content(Applied(s.db)) == PutAll(Content(db.head), ps))
  {
    hide AppendAll;
    hide Content;
    hide PutAll;
    hide Extends;
    hide Consistent;
    hide Distinct;
    hide StageAll;
    hide ReclaimEach;
    var s := StageAll(cfg, db, ps);
    ReadyExtends(cfg, db);
    StageAllExtends(cfg, db.head, db, ps);
    RollbackRestores(cfg, db.head, s.db);
    ExtendsParts(cfg.hash, db.head, s.db);
    if s.ok {
      NewSeriesInvisible(cfg.hash, db.head, s.db);
      AppendAllContent(cfg.hash, s.db.head, s.db.pending);
      assert Staged(db) + ps == ps;
    }
  }

  /** With a log the batch also keeps the log whole and the head its replay, at every stage. */
  lemma LoggedBatch(cfg: Config, db: Recovery.Db, ps: seq<Point>)
    requires Inv(cfg, db) && PointsOk(ps) && db.head.lastRef + |ps| < TWO_64
    ensures var s := StageAll(cfg, db, ps);
            Inv(cfg, s.db) && Inv(cfg, RolledBack(cfg, s.db)) && (BatchFits(s.db.newSeries, s.db.pending) ==> Inv(cfg, Committed(cfg, s.db)))
  {
    hide Extends;
    hide Logged;
    hide StageAll;
    hide BatchFits;
    StageAllExtends(cfg, Logged(cfg, db.disk), db, ps);
    var s := StageAll(cfg, db, ps);
    assert Inv(cfg, s.db);
    RollbackKeepsInv(cfg, s.db);
    if BatchFits(s.db.newSeries, s.db.pending) {
      CommitKeepsInv(cfg, s.db);
    }
  }

  /** A capped head never holds more series than its cap. */
  lemma {:induction false} StagingWithinCap(cfg: Config, db: Recovery.Db, ps: seq<Point>)
    requires Ready(cfg, db) && PointsOk(ps) && db.head.lastRef + |ps| < TWO_64
    requires 0 < cfg.maxSeries && |db.head.series| <= cfg.maxSeries
    ensures |StageAll(cfg, db, ps).db.head.series| <= cfg.maxSeries
  {
    hide Extends;
    hide Consistent;
    hide Canonical;
    hide Encodable;
    if ps != [] {
      var front, p := ps[..|ps| - 1], ps[|ps| - 1];
      StagingWithinCap(cfg, db, front);
      ReadyExtends(cfg, db);
      StageAllExtends(cfg, db.head, db, front);
      var s := StageAll(cfg, db, front);
      ExtendsParts(cfg.hash, db.head, s.db);
      AcquireConsistent(cfg.hash, s.db.head, p.labels, cfg.maxSeries);
    }
  }

  // ---- The request handler ----

  lemma {:induction false} StageAllStops(cfg: Config, db: Recovery.Db, a: seq<Point>, b: seq<Point>)
    requires db.head.lastRef + |a + b| < TWO_64 && !StageAll(cfg, db, a).ok
    ensures StageAll(cfg, db, a + b) == StageAll(cfg, db, a)
  {
    hide Acquire;
    if b == [] {
      assert a + b == a;
    } else {
      StageAllStops(cfg, db, a, b[..|b| - 1]);
      assert (a + b)[..|a + b| - 1] == a + b[..|b| - 1];
    }
  }

  lemma StageOneMore(cfg: Config, db: Recovery.Db, ps: seq<Point>, p: Point)
    requires db.head.lastRef + |ps| + 1 < TWO_64 && StageAll(cfg, db, ps).ok
    ensures StageAll(cfg, db, ps + [p]) ==
            var s := StageAll(cfg, db, ps);
            Staging(Appended(cfg, s.db, p.labels, p.t, p.v), Acquire(cfg.hash, s.db.head, p.labels, cfg.maxSeries).ok)
  {
    assert (ps + [p])[..|ps|] == ps;
  }

  lemma {:induction false} RequestPointsPrefix(series: seq<SeriesInput>, job: Bytes, instance: Bytes, now: Int64, i: nat)
    requires i < |series|
    ensures var next := RequestPoints(series[..i], job, instance, now) +
                        PointsOf(LabelsOf(series[i], job, instance), SamplePoints(series[i], now));
            RequestPoints(series[..i + 1], job, instance, now) == next &&
            exists rest :: RequestPoints(series, job, instance, now) == next + rest
    decreases |series|
  {
    hide LabelsOf;
    hide SamplePoints;
    assert series[..i + 1][..i] == series[..i];
    var next := RequestPoints(series[..i + 1], job, instance, now);
    if i == |series| - 1 {
      assert series[..i + 1] == series;
      assert next == next + [];
    } else {
      var front := series[..|series| - 1];
      assert front[..i] == series[..i] && front[..i + 1] == series[..i + 1];
      RequestPointsPrefix(front, job, instance, now, i);
      var rest :| RequestPoints(front, job, instance, now) == next + rest;
      var last := PointsOf(LabelsOf(series[|series| - 1], job, instance), SamplePoints(series[|series| - 1], now));
      assert next + rest + last == next + (rest + last);
    }
  }

  ghost function View(db: Database.Db): Recovery.Db
    reads db.head, db.wal
  {
    Recovery.Db(db.head.State(), db.OnDisk(), [], [])
  }

  /** The stored label set of one input. */
  method BuildLabels(s: SeriesInput, job: Bytes, instance: Bytes) returns (ls: LabelList)
    ensures ls == LabelsOf(s, job, instance)
  {
    ls := FromMap(LabelMap(s, job, instance));
    CanonicalUnique(ls, LabelsOf(s, job, instance));
  }

  lemma StagedEncodable(cfg: Config, db: Recovery.Db, ps: seq<Point>)
    requires Ready(cfg, db) && PointsOk(ps) && db.head.lastRef + |ps| < TWO_64 && |ps| < TWO_63
    requires StageAll(cfg, db, ps).ok
    ensures var s := StageAll(cfg, db, ps);
            |s.db.pending| < TWO_63 && forall i :: 0 <= i < |s.db.newSeries| ==> Encodable(s.db.newSeries[i].labels)
  {
    hide Encodable;
    hide StageAll;
    hide Consistent;
    hide Distinct;
    ReadyExtends(cfg, db);
    StageAllExtends(cfg, db.head, db, ps);
  }

  /** The inner loop: appends the points of one series; on a refusal, rolls the batch back. */
  method AppendPoints(app: Database.Appender, labels: LabelList, points: seq<SamplePoint>,
                      ghost cfg: Config, ghost before: Recovery.Db, ghost done: seq<Point>, ghost ps: seq<Point>)
    returns (ok: bool)
    requires app.db.Valid() && cfg == app.Config()
    requires PointsOk(ps) && before.head.lastRef + |ps| < TWO_64
    requires |done| + |points| <= |ps|
    requires ps[..|done| + |points|] == done + PointsOf(labels, points)
    requires StageAll(cfg, before, done) == Staging(app.View(), true)
    modifies app, app.db.head
    ensures app.db.Valid()
    ensures ok ==> StageAll(cfg, before, done + PointsOf(labels, points)) == Staging(app.View(), true)
    ensures !ok ==> !StageAll(cfg, before, ps).ok && app.View() == RolledBack(cfg, StageAll(cfg, before, ps).db)
  {
    hide Acquire;
    hide Canonical;
    hide Encodable;
    hide StageAll;
    hide RolledBack;
    hide Appended;
    ghost var mine := PointsOf(labels, points);
    assert done + mine[..0] == done;
    for k := 0 to |points|
      invariant app.db.Valid()
      invariant StageAll(cfg, before, done + mine[..k]) == Staging(app.View(), true)
    {
      assert done + mine[..k + 1] == done + mine[..k] + [mine[k]];
      assert mine[k] == ps[|done| + k];
      StageOneMore(cfg, before, done + mine[..k], mine[k]);
      var ref;
      ref, ok := app.Append(labels, points[k].t, points[k].v);
      if !ok {
        assert ps == ps[..|done| + k + 1] + ps[|done| + k + 1..];
        assert ps[..|done| + k + 1] == done + mine[..k + 1];
        StageAllStops(cfg, before, done + mine[..k + 1], ps[|done| + k + 1..]);
        app.Rollback();
        return false;
      }
    }
    assert mine[..|points|] == mine;
    return true;
  }

  function InstanceOf(req: Request, remoteHost: Bytes): Bytes {
    if req.instance == [] then remoteHost else req.instance
  }

  /** What a batch of points may have done: refused and restored up to the ref counter, or applied, and logged if there is a log. */
  ghost predicate AllOrNothing(cfg: Config, logged: bool, before: Recovery.Db, after: Recovery.Db, ps: seq<Point>, done: bool)
    requires before.head.lastRef + |ps| < TWO_64
  {
    var s := StageAll(cfg, before, ps);
    && s.ok == done
    && if done then
         && |s.db.pending| < TWO_63
         && (forall i :: 0 <= i < |s.db.newSeries| ==> Encodable(s.db.newSeries[i].labels))
         && after == if logged then Committed(cfg, s.db) else before.(head := Applied(s.db))
       else
         after == before.(head := before.head.(lastRef := s.db.head.lastRef))
  }

  /** The outer loop over the series of a request. */
  method StageRequest(app: Database.Appender, series: seq<SeriesInput>, job: Bytes, instance: Bytes, now: Int64,
                      ghost cfg: Config, ghost before: Recovery.Db, ghost ps: seq<Point>)
    returns (ok: bool, appended: nat)
    requires app.db.Valid() && cfg == app.Config() && before == app.View()
    requires ps == RequestPoints(series, job, instance, now)
    requires PointsOk(ps) && before.head.lastRef + |ps| < TWO_64
    modifies app, app.db.head
    ensures app.db.Valid()
    ensures ok ==> StageAll(cfg, before, ps) == Staging(app.View(), true) && appended == |ps|
    ensures !ok ==> !StageAll(cfg, before, ps).ok && app.View() == RolledBack(cfg, StageAll(cfg, before, ps).db)
  {
    hide RolledBack;
    hide PointsOf;
    hide StageAll;
    hide PointsOk;
    hide Consistent;
    hide RequestPoints;
    hide SamplePoints;
    appended := 0;
    NothingStaged(cfg, before);
    NoPoints(job, instance, now);
    ghost var done: seq<Point> := [];
    assert series[..0] == [];
    for j := 0 to |series|
      invariant app.db.Valid()
      invariant done == RequestPoints(series[..j], job, instance, now) && |done| <= |ps| && done == ps[..|done|]
      invariant appended == |done|
      invariant StageAll(cfg, before, done) == Staging(app.View(), true)
    {
      var labels := BuildLabels(series[j], job, instance);
      var points := SamplePoints(series[j], now);
      ghost var next := done + PointsOf(labels, points);
      RequestPointsPrefix(series, job, instance, now, j);
      assert |next| <= |ps| && next == ps[..|next|] by {
        var rest :| ps == next + rest;
      }
      ok := AppendPoints(app, labels, points, cfg, before, done, ps);
      if !ok {
        return false, appended;
      }
      appended := appended + |points|;
      done := next;
    }
    assert series[..|series|] == series;
    ok := true;
  }

  lemma NoPoints(job: Bytes, instance: Bytes, now: Int64)
    ensures RequestPoints([], job, instance, now) == []
  {
  }

  /** Appends all points of a request as one batch and commits it, or rolls it back at the first refusal. */
  method AppendRequest(db: Database.Db, series: seq<SeriesInput>, job: Bytes, instance: Bytes, now: Int64, ghost ps: seq<Point>)
    returns (ok: bool, appended: nat)
    requires db.Valid() && Distinct(db.head.State())
    requires ps == RequestPoints(series, job, instance, now)
    requires PointsOk(ps) && db.head.lastRef + |ps| < TWO_64 && |ps| < TWO_63
    modifies db.head, db.wal
    ensures db.Valid()
    ensures AllOrNothing(db.Config(), db.wal != null, old(View(db)), View(db), ps, ok)
    ensures ok ==> appended == |ps|
  {
    hide Inv;
    hide Committed;
    hide StageAll;
    hide PointsOk;
    hide RequestPoints;
    hide Consistent;
    ghost var cfg, before := db.Config(), View(db);
    var app := new Database.Appender(db);
    ok, appended := StageRequest(app, series, job, instance, now, cfg, before, ps);
    if ok {
      StagedEncodable(cfg, before, ps);
      app.Commit();
    } else {
      BatchAllOrNothing(cfg, before, ps);
    }
  }

  lemma NothingStaged(cfg: Config, db: Recovery.Db)
    requires db.head.lastRef < TWO_64
    ensures StageAll(cfg, db, []) == Staging(db, true)
  {
  }

  /**
   * Validates a request and appends it as one batch. A refused request leaves the log and the head as they were,
   * up to the ref counter; an accepted one is the committed staging of all its points.
   */
  method Ingest(db: Database.Db, sampleLimit: nat, req: Request, remoteHost: Bytes, now: Int64) returns (r: Outcome)
    requires db.Valid() && Distinct(db.head.State())
    requires var ps := RequestPoints(req.series, req.job, InstanceOf(req, remoteHost), now);
             PointsOk(ps) && db.head.lastRef + |ps| < TWO_64 && |ps| < TWO_63
    modifies db.head, db.wal
    ensures db.Valid()
    ensures r == BadData <==> !RequestOk(req)
    ensures r == OverLimit <==> RequestOk(req) && 0 < sampleLimit < SampleCount(req.series)
    ensures r == BadData || r == OverLimit ==> View(db) == old(View(db))
    ensures var ps := RequestPoints(req.series, req.job, InstanceOf(req, remoteHost), now);
            && (r == TooManySeries ==> AllOrNothing(db.Config(), db.wal != null, old(View(db)), View(db), ps, false))
            && (r.Done? ==>
                  && r.seriesTouched == |req.series| && r.samplesAppended == |ps|
                  && AllOrNothing(db.Config(), db.wal != null, old(View(db)), View(db), ps, true))
  {
    hide Inv;
    hide AllOrNothing;
    hide PointsOk;
    hide RequestOk;
    hide RequestPoints;
    if !RequestOk(req) {
      return BadData;
    }
    var instance := InstanceOf(req, remoteHost);
    var total := SampleCount(req.series);
    if sampleLimit > 0 && total > sampleLimit {
      return OverLimit;
    }
    var ok, appended := AppendRequest(db, req.series, req.job, instance, now,
                                      RequestPoints(req.series, req.job, instance, now));
    return if ok then Done(|req.series|, appended) else TooManySeries;
  }
}
