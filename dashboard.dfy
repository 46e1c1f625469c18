/**
 * One interaction of the dashboard: every derived view recomputed from the loaded
 * document, the sidebar's choices and the sort option, in the order `main` computes them
 * (slider bound, size options, filters, selection, timeline, sort); each view depends only
 * on its own inputs.
 */
module Dashboard {
  import opened Wrappers
  import opened Records
  import opened Projection
  import opened Filters
  import opened Sorting
  import opened Timeline

  /** What the presentation layer receives. */
  datatype Views = Views(
    rows: seq<Row>,
    sizeOptions: seq<string>,
    sliderMax: int,
    filteredRows: seq<Row>,
    profiles: seq<Profile>,
    timeline: seq<Bucket>)

  method Refresh(doc: Document, q: Query, sortOption: string) returns (v: Views)
    ensures v.rows == Project(ProfilesOf(doc))
    ensures v.sizeOptions == CompanySizeOptions(v.rows)
    ensures v.sliderMax == SliderMax(v.rows)
    ensures v.filteredRows == FilterRows(v.rows, q)
    ensures v.profiles == SortWith(SelectProfiles(ProfilesOf(doc), v.filteredRows), sortOption)
    ensures v.timeline == TimelineOf(ProfilesOf(doc))
  {
    var profiles := ProfilesOf(doc);
    var rows := ExtractRows(doc);
    var sliderMax := SliderMax(rows);
    var sizeOptions := CompanySizeOptions(rows);
    var filtered := FilterRows(rows, q);
    var selected := SelectProfiles(profiles, filtered);
    var dates := CollectDates(profiles);
    var timeline := CountByMonth(Months(dates));
    var sorted := SortSelection(selected, sortOption);
    v := Views(rows, sizeOptions, sliderMax, filtered, sorted, timeline);
  }

  /** The selection copied into a fresh list and sorted there in place. */
  method SortSelection(selected: seq<Profile>, sortOption: string) returns (sorted: seq<Profile>)
    ensures sorted == SortWith(selected, sortOption)
  {
    var shown := new Profile[|selected|](i requires 0 <= i < |selected| => selected[i]);
    assert shown[..] == selected;
    SortProfiles(shown, sortOption);
    sorted := shown[..];
  }

  /** A document without profiles gives empty views and the fallback bounds, without failing. */
  lemma EmptyDocument(q: Query, sortOption: string)
    ensures Project(ProfilesOf(Document(None))) == []
    ensures CompanySizeOptions([]) == [AllSizes] && SliderMax([]) == EmptySliderMax
    ensures FilterRows([], q) == []
    ensures SortWith(SelectProfiles([], []), sortOption) == []
    ensures TimelineOf([]) == []
  {
    assert SelectProfiles([], []) == [];
  }
}
