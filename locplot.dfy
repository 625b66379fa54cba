/** The script's pipeline from the tag listing to the bar series handed to
    the chart. The git tag listing is an input, and running the line counter
    at a tag (checkout, clean, counter run, JSON parse) is the function
    `measure`, given the tag and the counter's argument list. */
module Locplot {
  import opened Tokens
  import opened Tags
  import opened Tokei
  import opened Aggregation
  import opened Stats

  datatype Outcome =
    | Exited(status: int, message: string)
    | Plotted(bars: seq<Bar>)

  /** Each selected tag paired with what the counter reports there. */
  function Runs(tags: seq<Tag>, cmd: seq<string>, measure: (Tag, seq<string>) -> Measurement): (runs: seq<TagMeasurement>)
    ensures |runs| == |tags|
    ensures forall i :: 0 <= i < |tags| ==> runs[i].tag == tags[i] && runs[i].counts == measure(tags[i], cmd)
  {
    seq(|tags|, i requires 0 <= i < |tags| => TagMeasurement(tags[i], measure(tags[i], cmd)))
  }

  /** Select the tags; stop with status 0 when there are none, before any
      measurement; otherwise measure every tag in order, aggregate, and emit
      one bar series per key in insertion order. */
  method Plot(listing: string, exclude: Option<string>, measure: (Tag, seq<string>) -> Measurement)
    returns (outcome: Outcome)
    ensures outcome.Exited? <==> AllSpace(listing)
    ensures outcome.Exited? ==> outcome == Exited(0, NO_RELEASES_MESSAGE)
    ensures outcome.Plotted? ==>
      var t := Aggregate(Runs(GetTags(listing).tags, Command(exclude), measure));
      |outcome.bars| == |t.keys| &&
      forall i :: 0 <= i < |t.keys| ==> t.keys[i] in t.series && outcome.bars[i] == BarOf(t, t.keys[i])
  {
    var selection := GetTags(listing);
    if selection.Stop? {
      return Exited(selection.status, selection.message);
    }
    var cmd := Command(exclude);
    var runs := Runs(selection.tags, cmd, measure);
    var stats := Collect(runs);
    var bars := stats.Bars();
    outcome := Plotted(bars);
  }

  /** Three releases: Go at every tag, Markdown only at the second with no
      comments. Go's series has all three tags, Markdown's only the second,
      and `Comments` holds Go's comment count at every tag; `Comments` is
      inserted right after Go, before Markdown. */
  lemma ThreeReleases()
    ensures Aggregate(ThreeReleaseRuns()) == Table(
      ["Go", "Comments", "Markdown"],
      map[
        "Go" := Series(["v1.0", "v1.1", "v2.0"], [100, 120, 150]),
        "Comments" := Series(["v1.0", "v1.1", "v2.0"], [10, 10, 20]),
        "Markdown" := Series(["v1.1"], [5])
      ])
  {
    ThreeReleaseEvents();
    var es := ThreeReleaseAppends();
    RecordAllAppend(EmptyTable, es[..4], es[4..]);
    assert es[..4] + es[4..] == es;
    FirstTwoReleases();
    LastRelease();
  }

  function ThreeReleaseRuns(): seq<TagMeasurement> {
    [
      TagMeasurement("v1.0", [LanguageCount("Go", 100, 10)]),
      TagMeasurement("v1.1", [LanguageCount("Go", 120, 10), LanguageCount("Markdown", 5, 0)]),
      TagMeasurement("v2.0", [LanguageCount("Go", 150, 20)])
    ]
  }

  function ThreeReleaseAppends(): seq<Event> {
    [
      Event("Go", Point("v1.0", 100)), Event(COMMENTS, Point("v1.0", 10)),
      Event("Go", Point("v1.1", 120)), Event(COMMENTS, Point("v1.1", 10)),
      Event("Markdown", Point("v1.1", 5)),
      Event("Go", Point("v2.0", 150)), Event(COMMENTS, Point("v2.0", 20))
    ]
  }

  lemma ThreeReleaseEvents()
    ensures Events(ThreeReleaseRuns()) == ThreeReleaseAppends()
  {
    var runs := ThreeReleaseRuns();
    var r0, r1, r2 := runs[0], runs[1], runs[2];
    EventsOfThree(runs);
    var go1, md := LanguageCount("Go", 120, 10), LanguageCount("Markdown", 5, 0);
    assert r1.counts == [go1, md];
    OneLanguage(r0.tag, r0.counts[0]);
    TwoLanguages(r1.tag, go1, md);
    OneLanguage(r2.tag, r2.counts[0]);
    var a0 := MeasurementEvents(r0.tag, r0.counts);
    var a1 := MeasurementEvents(r1.tag, r1.counts);
    var a2 := MeasurementEvents(r2.tag, r2.counts);
    var es := ThreeReleaseAppends();
    assert a0 == es[..2];
    assert a1 == es[2..5];
    assert a2 == es[5..];
    assert es == es[..2] + es[2..5] + es[5..];
  }

  lemma OneLanguage(tag: Tag, c: LanguageCount)
    ensures MeasurementEvents(tag, [c]) == CountEvents(tag, c)
  {
    assert [c][..0] == [];
  }

  lemma TwoLanguages(tag: Tag, c: LanguageCount, d: LanguageCount)
    requires c.language != d.language
    ensures MeasurementEvents(tag, [c, d]) == CountEvents(tag, c) + CountEvents(tag, d)
  {
    OneLanguage(tag, c);
    assert [c, d][..1] == [c];
  }

  lemma EventsOfThree(runs: seq<TagMeasurement>)
    requires |runs| == 3
    ensures Events(runs) ==
      MeasurementEvents(runs[0].tag, runs[0].counts) + MeasurementEvents(runs[1].tag, runs[1].counts) +
      MeasurementEvents(runs[2].tag, runs[2].counts)
  {
    assert runs[..2][..1] == runs[..1];
    assert runs[..1][..0] == [];
    assert Events(runs[..1]) == MeasurementEvents(runs[0].tag, runs[0].counts);
  }

  lemma FirstTwoReleases()
    ensures RecordAll(EmptyTable, ThreeReleaseAppends()[..4]) == Table(
      ["Go", "Comments"],
      map["Go" := Series(["v1.0", "v1.1"], [100, 120]), "Comments" := Series(["v1.0", "v1.1"], [10, 10])])
  {
    var es := ThreeReleaseAppends()[..4];
    RecordAllSnoc(EmptyTable, [], es[0]);
    assert [] + [es[0]] == es[..1];
    RecordAllSnoc(EmptyTable, es[..1], es[1]);
    assert es[..1] + [es[1]] == es[..2];
    var t := RecordAll(EmptyTable, es[..2]);
    assert t == Table(["Go", "Comments"], map["Go" := Series(["v1.0"], [100]), "Comments" := Series(["v1.0"], [10])]);
    RecordAllSnoc(EmptyTable, es[..2], es[2]);
    assert es[..2] + [es[2]] == es[..3];
    RecordAllSnoc(EmptyTable, es[..3], es[3]);
    assert es[..3] + [es[3]] == es;
    assert ["v1.0"] + ["v1.1"] == ["v1.0", "v1.1"] && [100] + [120] == [100, 120] && [10] + [10] == [10, 10];
  }

  lemma LastRelease()
    ensures RecordAll(
      Table(["Go", "Comments"],
        map["Go" := Series(["v1.0", "v1.1"], [100, 120]), "Comments" := Series(["v1.0", "v1.1"], [10, 10])]),
      ThreeReleaseAppends()[4..]) == Table(
      ["Go", "Comments", "Markdown"],
      map[
        "Go" := Series(["v1.0", "v1.1", "v2.0"], [100, 120, 150]),
        "Comments" := Series(["v1.0", "v1.1", "v2.0"], [10, 10, 20]),
        "Markdown" := Series(["v1.1"], [5])
      ])
  {
    var t0 := Table(["Go", "Comments"],
      map["Go" := Series(["v1.0", "v1.1"], [100, 120]), "Comments" := Series(["v1.0", "v1.1"], [10, 10])]);
    var es := ThreeReleaseAppends()[4..];
    assert es == [Event("Markdown", Point("v1.1", 5)),
      Event("Go", Point("v2.0", 150)), Event(COMMENTS, Point("v2.0", 20))];
    RecordAllSnoc(t0, [], es[0]);
    assert [] + [es[0]] == es[..1];
    var t1 := Table(["Go", "Comments", "Markdown"], t0.series["Markdown" := Series(["v1.1"], [5])]);
    assert RecordAll(t0, es[..1]) == t1;
    RecordAllSnoc(t0, es[..1], es[1]);
    assert es[..1] + [es[1]] == es[..2];
    assert ["v1.0", "v1.1"] + ["v2.0"] == ["v1.0", "v1.1", "v2.0"];
    assert [100, 120] + [150] == [100, 120, 150] && [10, 10] + [20] == [10, 10, 20];
    var t2 := Table(t1.keys, t1.series["Go" := Series(["v1.0", "v1.1", "v2.0"], [100, 120, 150])]);
    assert RecordAll(t0, es[..2]) == t2;
    RecordAllSnoc(t0, es[..2], es[2]);
    assert es[..2] + [es[2]] == es;
    var t3 := Table(t2.keys, t2.series[COMMENTS := Series(["v1.0", "v1.1", "v2.0"], [10, 10, 20])]);
    assert RecordAll(t0, es) == t3;
  }

  /** Two commented languages at one tag give two `Comments` points at that
      tag, not one point with the sum. */
  lemma CommentsNotSummed()
    ensures Aggregate(TwoCommentedRuns()).series[COMMENTS] == Series(["v1", "v1"], [3, 4])
  {
    TwoCommentedEvents();
    CommentsOfAppends(Event("Go", Point("v1", 1)), Event(COMMENTS, Point("v1", 3)),
      Event("C", Point("v1", 2)), Event(COMMENTS, Point("v1", 4)));
  }

  lemma TwoCommentedEvents()
    ensures Events(TwoCommentedRuns()) == [Event("Go", Point("v1", 1)), Event(COMMENTS, Point("v1", 3)),
      Event("C", Point("v1", 2)), Event(COMMENTS, Point("v1", 4))]
  {
    var runs := TwoCommentedRuns();
    var go, c := LanguageCount("Go", 1, 3), LanguageCount("C", 2, 4);
    assert runs[0].counts == [go, c];
    TwoLanguages("v1", go, c);
    assert runs[..0] == [];
  }

  function TwoCommentedRuns(): seq<TagMeasurement> {
    [TagMeasurement("v1", [LanguageCount("Go", 1, 3), LanguageCount("C", 2, 4)])]
  }

  lemma CommentsOfAppends(e0: Event, e1: Event, e2: Event, e3: Event)
    requires e0 == Event("Go", Point("v1", 1)) && e1 == Event(COMMENTS, Point("v1", 3))
    requires e2 == Event("C", Point("v1", 2)) && e3 == Event(COMMENTS, Point("v1", 4))
    ensures RecordAll(EmptyTable, [e0, e1, e2, e3]).series[COMMENTS] == Series(["v1", "v1"], [3, 4])
  {
    var t2 := Table(["Go", "Comments"], map["Go" := Series(["v1"], [1]), "Comments" := Series(["v1"], [3])]);
    FirstCommentedLanguage(e0, e1);
    assert [e0, e1] + [e2] == [e0, e1, e2] && [e0, e1, e2] + [e3] == [e0, e1, e2, e3];
    RecordAllSnoc(EmptyTable, [e0, e1], e2);
    var t3 := Record(t2, e2);
    assert t3.series[COMMENTS] == Series(["v1"], [3]);
    RecordAllSnoc(EmptyTable, [e0, e1, e2], e3);
    assert Record(t3, e3).series[COMMENTS] == Series(["v1"] + ["v1"], [3] + [4]);
  }

  lemma FirstCommentedLanguage(e0: Event, e1: Event)
    requires e0 == Event("Go", Point("v1", 1)) && e1 == Event(COMMENTS, Point("v1", 3))
    ensures RecordAll(EmptyTable, [e0, e1]) ==
      Table(["Go", "Comments"], map["Go" := Series(["v1"], [1]), "Comments" := Series(["v1"], [3])])
  {
    assert [] + [e0] == [e0] && [e0] + [e1] == [e0, e1];
    RecordAllSnoc(EmptyTable, [], e0);
    RecordAllSnoc(EmptyTable, [e0], e1);
  }
}
