/** The statistics table as the script keeps it: a dictionary from language
    to two parallel lists, updated in place by the aggregation loop, and the
    loop itself lifted into a method over the measured tags. */
module Stats {
  import opened Tags
  import opened Tokei
  import opened Aggregation

  /** One bar series handed to the chart: name, x labels, y values and the
      bar width the script fixes at 1. */
  datatype Bar = Bar(name: Language, x: seq<Tag>, y: seq<int>, width: int)

  function BarOf(t: Table, k: Language): Bar
    requires k in t.series
  {
    Bar(k, t.series[k].x, t.series[k].y, 1)
  }

  /** `defaultdict(lambda: defaultdict(list))`: `keys` is the dictionary's
      insertion order and `series[k]` holds the lists `x` and `y` of key `k`. */
  class StatsTable {
    var keys: seq<Language>
    var series: map<Language, Series>

    ghost predicate Valid()
      reads this
    {
      WellFormed(Table(keys, series))
    }

    function Model(): Table
      reads this
    {
      Table(keys, series)
    }

    constructor ()
      ensures Valid() && Model() == EmptyTable
    {
      keys := [];
      series := map[];
    }

    /** `stats[key]['x'].append(tag)` followed by
        `stats[key]['y'].append(value)`. */
    method Append(key: Language, tag: Tag, value: int)
      requires Valid()
      modifies this
      ensures Valid()
      ensures Model() == Record(old(Model()), Event(key, Point(tag, value)))
      ensures Extends(old(Model()), Model())
    {
      if key !in series {
        // the first access inserts an empty entry at the end
        keys := keys + [key];
        series := series[key := Series([], [])];
      }
      var s := series[key];
      series := series[key := Series(s.x + [tag], s.y)];
      s := series[key];
      series := series[key := Series(s.x, s.y + [value])];
      assert key !in old(series) ==> series[key] == Series([tag], [value]);
      assert series == old(Model()).series[key := series[key]];
    }

    /** The body of the outer loop for one tag: every language of the
        measurement gets its code count, and the `Comments` series gets
        every positive comment count. */
    method AddMeasurement(tag: Tag, m: Measurement)
      requires Valid()
      modifies this
      ensures Valid()
      ensures Model() == RecordAll(old(Model()), MeasurementEvents(tag, m))
      ensures Extends(old(Model()), Model())
    {
      for i := 0 to |m|
        invariant Valid()
        invariant Model() == RecordAll(old(Model()), MeasurementEvents(tag, m[..i]))
      {
        var c := m[i];
        ghost var before := Model();
        Append(c.language, tag, c.code);
        if c.comments > 0 {
          Append(COMMENTS, tag, c.comments);
        }
        assert m[..i + 1][..i] == m[..i];
        ghost var ce := CountEvents(tag, c);
        RecordAllAppend(old(Model()), MeasurementEvents(tag, m[..i]), ce);
        assert RecordAll(before, ce[..1]) == Record(before, ce[0]) by {
          assert ce[..1][..0] == [];
        }
        if c.comments > 0 {
          assert ce[..|ce| - 1] == ce[..1];
        } else {
          assert ce == ce[..1];
        }
      }
      assert m[..|m|] == m;
      RecordAllExtends(old(Model()), MeasurementEvents(tag, m));
    }

    /** `for language, data in stats.items()`: one bar per key, in the
        order the keys were inserted. */
    method Bars() returns (bars: seq<Bar>)
      requires Valid()
      ensures |bars| == |keys|
      ensures forall i :: 0 <= i < |bars| ==>
        keys[i] in series && bars[i] == BarOf(Model(), keys[i])
    {
      bars := [];
      for i := 0 to |keys|
        invariant |bars| == i
        invariant forall j :: 0 <= j < i ==> keys[j] in series && bars[j] == BarOf(Model(), keys[j])
      {
        var language := keys[i];
        bars := bars + [Bar(language, series[language].x, series[language].y, 1)];
      }
    }
  }

  /** The aggregation loop: for every tag in order, the measurement taken at
      that tag is folded into a fresh table. */
  method Collect(runs: seq<TagMeasurement>) returns (stats: StatsTable)
    ensures fresh(stats)
    ensures stats.Valid() && stats.Model() == Aggregate(runs)
  {
    stats := new StatsTable();
    for i := 0 to |runs|
      invariant stats.Valid()
      invariant stats.Model() == Aggregate(runs[..i])
    {
      stats.AddMeasurement(runs[i].tag, runs[i].counts);
      assert runs[..i + 1][..i] == runs[..i];
      RecordAllAppend(EmptyTable, Events(runs[..i]), MeasurementEvents(runs[i].tag, runs[i].counts));
    }
    assert runs[..|runs|] == runs;
  }
}
