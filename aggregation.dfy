/** The statistics table the script builds from the per-tag measurements,
    as values: a table keyed by language, each entry two parallel lists `x`
    (tags) and `y` (counts), and the keys in the order they were first
    inserted into the `defaultdict`.

    Every step of the aggregation loop is an append of one point to one
    key's series; `Event` names such an append, `Record` performs it on a
    table, and `Aggregate` is the table after all the appends the loop makes
    over a run of measurements. The lemmas relate that table to reference
    definitions that say directly which points each series holds. */
module Aggregation {
  import opened Tags
  import opened Tokei

  /** The key of the synthetic series that collects comment counts. */
  const COMMENTS: Language := "Comments"

  datatype Series = Series(x: seq<Tag>, y: seq<int>)

  datatype Table = Table(keys: seq<Language>, series: map<Language, Series>)

  datatype Point = Point(tag: Tag, value: int)

  /** Appending `point` to the series of `key`. */
  datatype Event = Event(key: Language, point: Point)

  /** A tag together with the counter's output at that tag. */
  datatype TagMeasurement = TagMeasurement(tag: Tag, counts: Measurement)

  const EmptyTable: Table := Table([], map[])

  predicate NoDuplicates<T(==)>(s: seq<T>) {
    forall i, j :: 0 <= i < j < |s| ==> s[i] != s[j]
  }

  /** Keys are listed once each, every listed key has an entry and every
      entry is listed, and each entry's `x` and `y` lists have equal length. */
  predicate WellFormed(t: Table) {
    NoDuplicates(t.keys) &&
    (forall k :: k in t.keys ==> k in t.series) &&
    (forall k :: k in t.series ==> k in t.keys) &&
    (forall k :: k in t.series ==> |t.series[k].x| == |t.series[k].y|)
  }

  /** The (tag, value) pairs of a series, pairing `x[i]` with `y[i]`. */
  function Points(s: Series): (ps: seq<Point>)
    requires |s.x| == |s.y|
    ensures |ps| == |s.x|
    ensures forall i :: 0 <= i < |ps| ==> ps[i] == Point(s.x[i], s.y[i])
    decreases |s.x|
  {
    if |s.x| == 0 then []
    else
      var n := |s.x| - 1;
      Points(Series(s.x[..n], s.y[..n])) + [Point(s.x[n], s.y[n])]
  }

  /** `stats[key]['x'].append(tag); stats[key]['y'].append(value)`: a key not
      yet in the table is inserted after all existing keys. */
  function Record(t: Table, e: Event): (u: Table)
  {
    var k := e.key;
    if k in t.series then
      Table(t.keys, t.series[k := Series(t.series[k].x + [e.point.tag], t.series[k].y + [e.point.value])])
    else
      Table(t.keys + [k], t.series[k := Series([e.point.tag], [e.point.value])])
  }

  /** The events in order, applied one after another. */
  function RecordAll(t: Table, es: seq<Event>): Table
    decreases |es|
  {
    if es == [] then t else Record(RecordAll(t, es[..|es| - 1]), es[|es| - 1])
  }

  /** The appends the loop body makes for one language at one tag: its code
      count to its own series, then, when the comment count is positive, the
      comment count to the `Comments` series. */
  function CountEvents(tag: Tag, c: LanguageCount): (es: seq<Event>)
    ensures |es| == if c.comments > 0 then 2 else 1
    ensures forall i :: 0 <= i < |es| ==> es[i].point.tag == tag
    ensures es[0] == Event(c.language, Point(tag, c.code))
    ensures forall i :: 1 <= i < |es| ==> es[i] == Event(COMMENTS, Point(tag, c.comments))
  {
    [Event(c.language, Point(tag, c.code))] +
    (if c.comments > 0 then [Event(COMMENTS, Point(tag, c.comments))] else [])
  }

  function MeasurementEvents(tag: Tag, m: Measurement): seq<Event>
    decreases |m|
  {
    if m == [] then []
    else MeasurementEvents(tag, m[..|m| - 1]) + CountEvents(tag, m[|m| - 1])
  }

  function Events(runs: seq<TagMeasurement>): seq<Event>
    decreases |runs|
  {
    if runs == [] then []
    else
      var r := runs[|runs| - 1];
      Events(runs[..|runs| - 1]) + MeasurementEvents(r.tag, r.counts)
  }

  /** The table the aggregation loop leaves behind. */
  function Aggregate(runs: seq<TagMeasurement>): (t: Table)
    ensures WellFormed(t)
    ensures t.keys == FirstOccurrences(Events(runs))
    ensures forall k :: k in t.series ==> Points(t.series[k]) == Select(Events(runs), k)
  {
    RecordAllFromEmpty(Events(runs));
    RecordAll(EmptyTable, Events(runs))
  }

  // ---------------------------------------------------------------------
  // Reference definitions

  /** The points appended to `k`, in the order they were appended. */
  function Select(es: seq<Event>, k: Language): seq<Point>
    decreases |es|
  {
    if es == [] then []
    else
      var e := es[|es| - 1];
      Select(es[..|es| - 1], k) + (if e.key == k then [e.point] else [])
  }

  /** The keys of the events, each once, in order of first occurrence. */
  function FirstOccurrences(es: seq<Event>): seq<Language>
    decreases |es|
  {
    if es == [] then []
    else
      var ks := FirstOccurrences(es[..|es| - 1]);
      var k := es[|es| - 1].key;
      if k in ks then ks else ks + [k]
  }

  predicate Occurs(es: seq<Event>, k: Language) {
    exists i :: 0 <= i < |es| && es[i].key == k
  }

  /** The code counts reported for `k`: one point per entry naming `k`, in
      measurement order, tags in traversal order. */
  function LanguagePoints(runs: seq<TagMeasurement>, k: Language): seq<Point>
    decreases |runs|
  {
    if runs == [] then []
    else
      var r := runs[|runs| - 1];
      LanguagePoints(runs[..|runs| - 1], k) + CodePoints(r.tag, r.counts, k)
  }

  function CodePoints(tag: Tag, m: Measurement, k: Language): seq<Point>
    decreases |m|
  {
    if m == [] then []
    else
      var c := m[|m| - 1];
      CodePoints(tag, m[..|m| - 1], k) + (if c.language == k then [Point(tag, c.code)] else [])
  }

  /** One point per (tag, language) pair whose comment count is positive;
      counts of one tag are not added together. */
  function CommentPoints(runs: seq<TagMeasurement>): seq<Point>
    decreases |runs|
  {
    if runs == [] then []
    else
      var r := runs[|runs| - 1];
      CommentPoints(runs[..|runs| - 1]) + CommentedPoints(r.tag, r.counts)
  }

  function CommentedPoints(tag: Tag, m: Measurement): seq<Point>
    decreases |m|
  {
    if m == [] then []
    else
      var c := m[|m| - 1];
      CommentedPoints(tag, m[..|m| - 1]) + (if c.comments > 0 then [Point(tag, c.comments)] else [])
  }

  predicate Measures(m: Measurement, k: Language) {
    exists i :: 0 <= i < |m| && m[i].language == k
  }

  /** The code count of `k` in a measurement that names it. */
  function CodeOf(m: Measurement, k: Language): int
    requires Measures(m, k)
    decreases |m|
  {
    if m[|m| - 1].language == k then m[|m| - 1].code
    else
      assert Measures(m[..|m| - 1], k) by {
        var i :| 0 <= i < |m| && m[i].language == k;
        assert m[..|m| - 1][i].language == k;
      }
      CodeOf(m[..|m| - 1], k)
  }

  /** One point `(tag, code)` per tag whose measurement names `k`. */
  function TagPoints(runs: seq<TagMeasurement>, k: Language): seq<Point>
    decreases |runs|
  {
    if runs == [] then []
    else
      var r := runs[|runs| - 1];
      TagPoints(runs[..|runs| - 1], k) +
      (if Measures(r.counts, k) then [Point(r.tag, CodeOf(r.counts, k))] else [])
  }

  // ---------------------------------------------------------------------
  // The table agrees with the reference definitions

  lemma {:induction false} RecordAllAppend(t: Table, a: seq<Event>, b: seq<Event>)
    ensures RecordAll(t, a + b) == RecordAll(RecordAll(t, a), b)
    decreases |b|
  {
    if b == [] {
      assert a + b == a;
    } else {
      var n := |b| - 1;
      assert (a + b)[..|a + b| - 1] == a + b[..n];
      assert (a + b)[|a + b| - 1] == b[n];
      RecordAllAppend(t, a, b[..n]);
    }
  }

  lemma {:induction false} NotOccursSelect(es: seq<Event>, k: Language)
    requires !Occurs(es, k)
    ensures Select(es, k) == []
    decreases |es|
  {
    if es != [] {
      var n := |es| - 1;
      forall i | 0 <= i < n ensures es[..n][i].key != k {
        assert es[..n][i] == es[i];
      }
      NotOccursSelect(es[..n], k);
    }
  }

  lemma {:induction false} OccursPrefix(es: seq<Event>, k: Language)
    requires es != []
    ensures Occurs(es, k) <==> Occurs(es[..|es| - 1], k) || es[|es| - 1].key == k
  {
    var n := |es| - 1;
    if Occurs(es[..n], k) {
      var i :| 0 <= i < n && es[..n][i].key == k;
      assert es[i].key == k;
    }
    if Occurs(es, k) && es[n].key != k {
      var i :| 0 <= i < |es| && es[i].key == k;
      assert es[..n][i].key == k;
    }
  }

  lemma PointsAppend(s: Series, tag: Tag, v: int)
    requires |s.x| == |s.y|
    ensures Points(Series(s.x + [tag], s.y + [v])) == Points(s) + [Point(tag, v)]
  {
  }

  /** One append keeps a table well formed and only extends it: a new key
      goes after all existing keys, the appended point goes at the end of
      its key's series, and every other entry is left as it was. */
  lemma RecordKeeps(t: Table, e: Event)
    requires WellFormed(t)
    ensures var u := Record(t, e);
      WellFormed(u) && Extends(t, u) &&
      u.keys == (if e.key in t.series then t.keys else t.keys + [e.key]) &&
      e.key in u.series &&
      Points(u.series[e.key]) == (if e.key in t.series then Points(t.series[e.key]) else []) + [e.point] &&
      (forall k :: k in t.series && k != e.key ==> k in u.series && u.series[k] == t.series[k])
  {
    var u, k := Record(t, e), e.key;
    if k in t.series {
      PointsAppend(t.series[k], e.point.tag, e.point.value);
      assert u.keys == t.keys;
    } else {
      assert u.keys == t.keys + [k];
      assert u.series == t.series[k := Series([e.point.tag], [e.point.value])];
      assert NoDuplicates(u.keys) by {
        forall i, j | 0 <= i < j < |u.keys| ensures u.keys[i] != u.keys[j] {
          if j == |t.keys| {
            assert u.keys[i] == t.keys[i];
          } else {
            assert u.keys[i] == t.keys[i] && u.keys[j] == t.keys[j];
          }
        }
      }
      assert Points(u.series[k]) == [e.point];
    }
  }

  /** Aggregating from an empty table gives a well-formed table whose keys
      are the event keys in order of first occurrence and whose series for
      each key holds exactly the points appended to that key, in order. */
  lemma {:induction false} RecordAllFromEmpty(es: seq<Event>)
    ensures var t := RecordAll(EmptyTable, es);
      WellFormed(t) &&
      t.keys == FirstOccurrences(es) &&
      (forall k :: k in t.series <==> Occurs(es, k)) &&
      (forall k :: k in t.series ==> Points(t.series[k]) == Select(es, k))
    decreases |es|
  {
    if es != [] {
      var n := |es| - 1;
      var pre, e := es[..n], es[n];
      RecordAllFromEmpty(pre);
      var t0 := RecordAll(EmptyTable, pre);
      RecordKeeps(t0, e);
      var t := Record(t0, e);
      assert t == RecordAll(EmptyTable, es);
      assert e.key in t0.series <==> e.key in FirstOccurrences(pre);
      forall k ensures Occurs(es, k) <==> Occurs(pre, k) || e.key == k {
        OccursPrefix(es, k);
      }
      forall k | k in t.series ensures Points(t.series[k]) == Select(es, k) {
        if k == e.key && k !in t0.series {
          NotOccursSelect(pre, k);
        }
      }
    }
  }

  lemma {:induction false} CodePointsEvents(tag: Tag, m: Measurement, k: Language)
    requires k != COMMENTS
    ensures Select(MeasurementEvents(tag, m), k) == CodePoints(tag, m, k)
    decreases |m|
  {
    if m != [] {
      var n := |m| - 1;
      var c := m[n];
      CodePointsEvents(tag, m[..n], k);
      SelectAppend(MeasurementEvents(tag, m[..n]), CountEvents(tag, c), k);
      var ce := CountEvents(tag, c);
      if c.comments > 0 {
        assert ce[..1] == [Event(c.language, Point(tag, c.code))];
        SelectAppend(ce[..1], ce[1..], k);
        assert ce[..1] + ce[1..] == ce;
      }
    }
  }

  lemma {:induction false} SelectAppend(a: seq<Event>, b: seq<Event>, k: Language)
    ensures Select(a + b, k) == Select(a, k) + Select(b, k)
    decreases |b|
  {
    if b == [] {
      assert a + b == a;
    } else {
      var n := |b| - 1;
      assert (a + b)[..|a + b| - 1] == a + b[..n];
      assert (a + b)[|a + b| - 1] == b[n];
      SelectAppend(a, b[..n], k);
    }
  }

  /** A language's series holds one point per entry naming it, with that
      entry's code count, in traversal order. */
  lemma {:induction false} LanguageSeries(runs: seq<TagMeasurement>, k: Language)
    requires k != COMMENTS
    ensures Select(Events(runs), k) == LanguagePoints(runs, k)
    decreases |runs|
  {
    if runs != [] {
      var n := |runs| - 1;
      var r := runs[n];
      LanguageSeries(runs[..n], k);
      SelectAppend(Events(runs[..n]), MeasurementEvents(r.tag, r.counts), k);
      CodePointsEvents(r.tag, r.counts, k);
    }
  }

  predicate NoLanguageNamedComments(runs: seq<TagMeasurement>) {
    forall i, j :: 0 <= i < |runs| && 0 <= j < |runs[i].counts| ==>
      runs[i].counts[j].language != COMMENTS
  }

  lemma {:induction false} CommentedPointsEvents(tag: Tag, m: Measurement)
    requires forall j :: 0 <= j < |m| ==> m[j].language != COMMENTS
    ensures Select(MeasurementEvents(tag, m), COMMENTS) == CommentedPoints(tag, m)
    decreases |m|
  {
    if m != [] {
      var n := |m| - 1;
      var c := m[n];
      CommentedPointsEvents(tag, m[..n]);
      SelectAppend(MeasurementEvents(tag, m[..n]), CountEvents(tag, c), COMMENTS);
      var ce := CountEvents(tag, c);
      if c.comments > 0 {
        assert ce[..1] == [Event(c.language, Point(tag, c.code))];
        SelectAppend(ce[..1], ce[1..], COMMENTS);
        assert ce[..1] + ce[1..] == ce;
      }
    }
  }

  /** The `Comments` series holds one point `(tag, comments)` per (tag,
      language) pair with a positive comment count, in traversal order. */
  lemma {:induction false} CommentsSeries(runs: seq<TagMeasurement>)
    requires NoLanguageNamedComments(runs)
    ensures Select(Events(runs), COMMENTS) == CommentPoints(runs)
    decreases |runs|
  {
    if runs != [] {
      var n := |runs| - 1;
      var r := runs[n];
      assert NoLanguageNamedComments(runs[..n]) by {
        forall i, j | 0 <= i < n && 0 <= j < |runs[..n][i].counts|
          ensures runs[..n][i].counts[j].language != COMMENTS
        {
          assert runs[..n][i] == runs[i];
        }
      }
      CommentsSeries(runs[..n]);
      SelectAppend(Events(runs[..n]), MeasurementEvents(r.tag, r.counts), COMMENTS);
      CommentedPointsEvents(r.tag, r.counts);
    }
  }

  /** In a measurement naming each language once, the entries naming `k`
      contribute a single point with its code count if `k` is named, and
      none otherwise. */
  lemma {:induction false} CodePointsDistinct(tag: Tag, m: Measurement, k: Language)
    ensures CodePoints(tag, m, k) ==
      if Measures(m, k) then [Point(tag, CodeOf(m, k))] else []
    decreases |m|
  {
    if m != [] {
      var n := |m| - 1;
      var pre := m[..n];
      CodePointsDistinct(tag, pre, k);
      if m[n].language == k {
        forall i | 0 <= i < n ensures pre[i].language != k {
          assert pre[i] == m[i];
        }
      } else {
        assert Measures(m, k) <==> Measures(pre, k) by {
          if Measures(m, k) {
            var i :| 0 <= i < |m| && m[i].language == k;
            assert pre[i].language == k;
          }
          if Measures(pre, k) {
            var i :| 0 <= i < n && pre[i].language == k;
            assert m[i].language == k;
          }
        }
      }
    }
  }

  /** Since a measurement names each language at most once, a language's
      series has exactly one point per tag whose measurement names it. */
  lemma {:induction false} OnePointPerTag(runs: seq<TagMeasurement>, k: Language)
    ensures LanguagePoints(runs, k) == TagPoints(runs, k)
    decreases |runs|
  {
    if runs != [] {
      var n := |runs| - 1;
      OnePointPerTag(runs[..n], k);
      CodePointsDistinct(runs[n].tag, runs[n].counts, k);
    }
  }

  /** The aggregated table has one entry per key that was appended to; each
      language's series is its code counts in traversal order, and the
      `Comments` series one point per positive comment count. */
  lemma AggregateSeries(runs: seq<TagMeasurement>)
    ensures var t := Aggregate(runs);
      (forall k :: k in t.series <==> Occurs(Events(runs), k)) &&
      (forall k :: k in t.series && k != COMMENTS ==>
         Points(t.series[k]) == LanguagePoints(runs, k)) &&
      (NoLanguageNamedComments(runs) && COMMENTS in t.series ==>
         Points(t.series[COMMENTS]) == CommentPoints(runs))
  {
    RecordAllFromEmpty(Events(runs));
    forall k | k != COMMENTS {
      LanguageSeries(runs, k);
    }
    if NoLanguageNamedComments(runs) {
      CommentsSeries(runs);
    }
  }

  // ---------------------------------------------------------------------
  // Keys appear in the order of their first append

  /** The position of the first append to `k`. */
  function FirstIndex(es: seq<Event>, k: Language): (i: nat)
    requires Occurs(es, k)
    ensures i < |es| && es[i].key == k
    ensures forall j :: 0 <= j < i ==> es[j].key != k
  {
    if es[0].key == k then 0
    else
      assert Occurs(es[1..], k) by {
        var i :| 0 <= i < |es| && es[i].key == k;
        assert es[1..][i - 1].key == k;
      }
      1 + FirstIndex(es[1..], k)
  }

  lemma {:induction false} FirstOccurrencesOccur(es: seq<Event>)
    ensures forall i :: 0 <= i < |FirstOccurrences(es)| ==> Occurs(es, FirstOccurrences(es)[i])
    ensures forall k :: Occurs(es, k) ==> k in FirstOccurrences(es)
    decreases |es|
  {
    if es != [] {
      var n := |es| - 1;
      FirstOccurrencesOccur(es[..n]);
      forall k ensures Occurs(es, k) <==> Occurs(es[..n], k) || es[n].key == k {
        OccursPrefix(es, k);
      }
    }
  }

  /** Of any two keys of the table, the one listed first was appended to
      first. */
  lemma {:induction false} FirstOccurrencesOrder(es: seq<Event>)
    ensures forall i, j :: 0 <= i < j < |FirstOccurrences(es)| ==>
      Occurs(es, FirstOccurrences(es)[i]) && Occurs(es, FirstOccurrences(es)[j]) &&
      FirstIndex(es, FirstOccurrences(es)[i]) < FirstIndex(es, FirstOccurrences(es)[j])
    decreases |es|
  {
    FirstOccurrencesOccur(es);
    if es != [] {
      var n := |es| - 1;
      var pre := es[..n];
      var ks, ks0 := FirstOccurrences(es), FirstOccurrences(pre);
      FirstOccurrencesOrder(pre);
      FirstOccurrencesOccur(pre);
      // a key that already occurs in the prefix keeps its first index
      forall k | Occurs(pre, k) ensures FirstIndex(es, k) == FirstIndex(pre, k) {
        var a, b := FirstIndex(es, k), FirstIndex(pre, k);
        assert es[b] == pre[b];
        assert a <= b;
        assert pre[a] == es[a];
      }
      forall i, j | 0 <= i < j < |ks|
        ensures FirstIndex(es, ks[i]) < FirstIndex(es, ks[j])
      {
        if j < |ks0| {
          assert ks[i] == ks0[i] && ks[j] == ks0[j];
        } else {
          // ks[j] is the last event's key, seen for the first time
          assert ks[j] == es[n].key && ks[j] !in ks0;
          assert ks[i] == ks0[i];
          assert !Occurs(pre, ks[j]);
          forall m | 0 <= m < n ensures es[m].key != ks[j] {
            assert pre[m] == es[m];
          }
          assert FirstIndex(es, ks[j]) == n;
        }
      }
    }
  }

  /** The table's keys are in order of the first append to each. */
  lemma KeyOrder(runs: seq<TagMeasurement>)
    ensures var t := Aggregate(runs); var es := Events(runs);
      (forall i :: 0 <= i < |t.keys| ==> Occurs(es, t.keys[i])) &&
      (forall i, j :: 0 <= i < j < |t.keys| ==>
         FirstIndex(es, t.keys[i]) < FirstIndex(es, t.keys[j]))
  {
    RecordAllFromEmpty(Events(runs));
    FirstOccurrencesOccur(Events(runs));
    FirstOccurrencesOrder(Events(runs));
  }

  // ---------------------------------------------------------------------
  // Aggregation only appends

  /** `u` is `t` with points appended: keys and every series only grew at
      the end. */
  ghost predicate Extends(t: Table, u: Table) {
    t.keys <= u.keys &&
    forall k :: k in t.series ==>
      k in u.series && t.series[k].x <= u.series[k].x && t.series[k].y <= u.series[k].y
  }

  lemma {:induction false} RecordAllExtends(t: Table, es: seq<Event>)
    ensures Extends(t, RecordAll(t, es))
    decreases |es|
  {
    if es != [] {
      RecordAllExtends(t, es[..|es| - 1]);
    }
  }

  lemma {:induction false} EventsAppend(runs: seq<TagMeasurement>, more: seq<TagMeasurement>)
    ensures Events(runs + more) == Events(runs) + Events(more)
    decreases |more|
  {
    if more != [] {
      var n := |more| - 1;
      assert (runs + more)[..|runs + more| - 1] == runs + more[..n];
      assert (runs + more)[|runs + more| - 1] == more[n];
      EventsAppend(runs, more[..n]);
      var last := MeasurementEvents(more[n].tag, more[n].counts);
      assert Events(runs + more) == Events(runs + more[..n]) + last;
      assert Events(more) == Events(more[..n]) + last;
    } else {
      assert runs + more == runs;
    }
  }

  /** Measuring further tags never changes or reorders what is already in
      the table; it only appends points and keys. */
  lemma AggregateExtends(runs: seq<TagMeasurement>, more: seq<TagMeasurement>)
    ensures Extends(Aggregate(runs), Aggregate(runs + more))
  {
    EventsAppend(runs, more);
    RecordAllAppend(EmptyTable, Events(runs), Events(more));
    RecordAllExtends(Aggregate(runs), Events(more));
  }

  // ---------------------------------------------------------------------
  // Unfolding steps for concrete runs

  lemma RecordAllSnoc(t: Table, es: seq<Event>, e: Event)
    ensures RecordAll(t, es + [e]) == Record(RecordAll(t, es), e)
  {
    assert (es + [e])[..|es|] == es;
  }
}
