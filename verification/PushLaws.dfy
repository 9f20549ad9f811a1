/** What a push request stores: each point of each input by labels, time and value. */
module PushLaws {
  import opened Base
  import opened Labels
  import opened Recovery
  import opened Push
  import Exposition
  import opened ExpositionLaws

  /** The stored labels: the server's metric name, job and instance, and the client's other labels. */
  ghost predicate StoredLabels(ls: LabelList, s: SeriesInput, job: Bytes, instance: Bytes) {
    && Canonical(ls)
    && Get(ls, Ascii("__name__")) == s.name && Get(ls, Ascii("job")) == job && Get(ls, Ascii("instance")) == instance
    && (forall n :: n !in [Ascii("__name__"), Ascii("job"), Ascii("instance")] ==>
          Get(ls, n) == if n in s.labels then s.labels[n] else [])
    && (forall l: Label :: l in ls ==> l.name in s.labels || l.name in [Ascii("__name__"), Ascii("job"), Ascii("instance")])
  }

  lemma ReservedNames()
    ensures Ascii("__name__") == METRIC_NAME && Ascii("job") == JOB && Ascii("instance") == INSTANCE
    ensures METRIC_NAME != JOB && METRIC_NAME != INSTANCE && JOB != INSTANCE
  {
  }

  lemma LabelsLookUp(s: SeriesInput, job: Bytes, instance: Bytes)
    ensures var ls, m := LabelsOf(s, job, instance), LabelMap(s, job, instance);
            && Canonical(ls)
            && (forall n :: Get(ls, n) == if n in m then m[n] else [])
            && (forall l: Label :: l in ls ==> l.name in m)
  {
    var ls, m := LabelsOf(s, job, instance), LabelMap(s, job, instance);
    hide LabelsOf;
    hide LabelMap;
    forall n ensures Get(ls, n) == if n in m then m[n] else [] {
      GetIsLookup(ls, n);
    }
    forall l: Label | l in ls ensures l.name in m {
      var i :| 0 <= i < |ls| && ls[i] == l;
      NameIsKey(ls, i);
    }
    hide Get;
    hide Canonical;
    hide LastWins;
  }

  lemma LabelsTell(s: SeriesInput, job: Bytes, instance: Bytes)
    ensures StoredLabels(LabelsOf(s, job, instance), s, job, instance)
  {
    ReservedNames();
    LabelsLookUp(s, job, instance);
    hide Ascii;
    hide LabelsOf;
    hide Get;
    hide Canonical;
    hide LastWins;
  }

  /** The samples of one input: a shorthand value at the time of the request, or its samples, time 0 standing for that time. */
  ghost predicate StoredPoints(mine: seq<Point>, s: SeriesInput, job: Bytes, instance: Bytes, now: Int64) {
    && |mine| == (if s.value.Some? then 1 else |s.samples|)
    && forall k :: 0 <= k < |mine| ==>
         && StoredLabels(mine[k].labels, s, job, instance)
         && mine[k].t == (if s.value.Some? || s.samples[k].t == 0 then now else s.samples[k].t)
         && mine[k].v == (if s.value.Some? then s.value.value else s.samples[k].v)
  }

  lemma PointsTell(s: SeriesInput, job: Bytes, instance: Bytes, now: Int64)
    ensures StoredPoints(PointsOf(LabelsOf(s, job, instance), SamplePoints(s, now)), s, job, instance, now)
  {
    LabelsTell(s, job, instance);
    hide LabelsOf;
    hide StoredLabels;
  }

  /** The points of a request are those of its inputs, in order. */
  lemma {:induction false} RequestTells(series: seq<SeriesInput>, job: Bytes, instance: Bytes, now: Int64, i: nat)
    returns (before: seq<Point>, mine: seq<Point>, after: seq<Point>)
    requires i < |series|
    ensures RequestPoints(series, job, instance, now) == before + mine + after
    ensures |before| == SampleCount(series[..i]) && |before + mine| == SampleCount(series[..i + 1])
    ensures StoredPoints(mine, series[i], job, instance, now)
    decreases |series|
  {
    hide LabelsOf;
    hide StoredPoints;
    hide PointsOf;
    var front, s := series[..|series| - 1], series[|series| - 1];
    if i == |series| - 1 {
      before, mine, after := RequestPoints(front, job, instance, now), PointsOf(LabelsOf(s, job, instance), SamplePoints(s, now)), [];
      PointsTell(s, job, instance, now);
      CountsPoints(front, job, instance, now);
      CountsPoints(series, job, instance, now);
      assert series[..i + 1] == series;
      assert before + mine + [] == before + mine;
    } else {
      before, mine, after := RequestTells(front, job, instance, now, i);
      assert front[..i] == series[..i] && front[..i + 1] == series[..i + 1];
      var last := PointsOf(LabelsOf(s, job, instance), SamplePoints(s, now));
      assert before + mine + after + last == before + mine + (after + last);
      after := after + last;
    }
  }

  lemma {:induction false} CountsPoints(series: seq<SeriesInput>, job: Bytes, instance: Bytes, now: Int64)
    ensures |RequestPoints(series, job, instance, now)| == SampleCount(series)
  {
    hide LabelsOf;
    if series != [] {
      CountsPoints(series[..|series| - 1], job, instance, now);
    }
  }

  // ---- What is refused ----

  /** Some byte is not white space. */
  ghost predicate SaysSomething(job: Bytes) {
    exists i :: 0 <= i < |job| && job[i] != 32 && !(9 <= job[i] <= 13)
  }

  lemma BlankExact(job: Bytes)
    ensures IsBlank(job) <==> !SaysSomething(job)
  {
  }

  /** A metric name, either a value or samples, and labels that are reserved or valid without a leading __. */
  ghost predicate Acceptable(s: SeriesInput) {
    && Exposition.ValidMetricName(s.name)
    && (s.value.Some? ==> s.samples == []) && (s.value.None? ==> s.samples != [])
    && forall n :: n in s.labels && n !in [Ascii("__name__"), Ascii("job"), Ascii("instance")] ==>
         Exposition.ValidLabelName(n) && !(|n| >= 2 && n[0] == n[1] == 95)
  }

  lemma DoubleUnderscore(n: Bytes)
    ensures [95, 95] <= n <==> |n| >= 2 && n[0] == n[1] == 95
  {
  }

  lemma InputExact(s: SeriesInput)
    ensures InputOk(s) <==> Acceptable(s)
  {
    ReservedNames();
    hide Ascii;
    hide Exposition.ValidLabelName;
    hide Exposition.ValidMetricName;
    forall n | n in s.labels
      ensures LabelNameOk(n) <==> (n !in [METRIC_NAME, JOB, INSTANCE] ==>
                                     Exposition.ValidLabelName(n) && !(|n| >= 2 && n[0] == n[1] == 95))
    {
      DoubleUnderscore(n);
    }
    hide LabelNameOk;
  }

  /** A request is taken exactly when its job says something, it has series, and every one of them is acceptable. */
  lemma ValidationExact(r: Request)
    ensures RequestOk(r) <==> SaysSomething(r.job) && r.series != [] && forall i :: 0 <= i < |r.series| ==> Acceptable(r.series[i])
  {
    BlankExact(r.job);
    forall i | 0 <= i < |r.series| ensures InputOk(r.series[i]) <==> Acceptable(r.series[i]) {
      InputExact(r.series[i]);
    }
    hide IsBlank;
    hide SaysSomething;
    hide InputOk;
    hide Acceptable;
  }
}
