/** The batch loop: classify every product row of the sheet, ask the naming service
    for a name, and collect one entry per row. */
module Batch {
  import opened Sequences
  import opened Rows
  import opened Features

  datatype Option<T> = None | Some(value: T)

  datatype Result<T, E> = Success(value: T) | Failure(error: E)

  /** The product sheet: its header of column names and, per product, the row of cells
      under that header. */
  datatype Table = Table(columns: seq<string>, records: seq<Row>)

  /** A sheet as `read_excel` produces it: header names are unique and every record
      has one cell per header column, in header order. */
  predicate WellFormed(t: Table) {
    NoDup(t.columns) && forall r :: r in t.records ==> Names(r) == t.columns
  }

  /** `df.iloc[[index]]`: record `i` under the sheet's header. */
  function RowAt(t: Table, i: nat): (row: Row)
    requires WellFormed(t) && i < |t.records|
    ensures Names(row) == t.columns && Distinct(row)
  {
    assert t.records[i] in t.records;
    t.records[i]
  }

  /** What one `call_api` call yields: the message text, a message whose content is
      None, or an exception (authentication, rate limit, network, no choices). */
  datatype Completion = Answer(text: string) | NoContent | Raised(error: string)

  /** The naming service, from (standard dict, feature dict) to its completion. */
  type NamingService = (Dict, Dict) -> Completion

  /** The batch stopped at `row` because the call for it raised `error`. */
  datatype Aborted = Aborted(row: nat, error: string)

  /** The completion the service gives for row `i` of the sheet. */
  function Ask(t: Table, api: NamingService, i: nat): Completion
    requires WellFormed(t) && i < |t.records|
  {
    var classified := Classify(RowAt(t, i));
    api(classified.0, classified.1)
  }

  /** The entry appended to the name series for a call that returned: its text, or
      None when the message had no content. */
  function Entry(c: Completion): (e: Option<string>)
    requires !c.Raised?
    ensures e.Some? <==> c.Answer?
    ensures e.Some? ==> e.value == c.text
  {
    if c.Answer? then Some(c.text) else None
  }

  /** `create_names`: rows are handled strictly in index order, none skipped; the first
      call that raises ends the batch with no series; otherwise entry `i` belongs to
      row `i`. */
  method CreateNames(t: Table, api: NamingService) returns (r: Result<seq<Option<string>>, Aborted>)
    requires WellFormed(t)
    ensures r.Success? <==> forall i :: 0 <= i < |t.records| ==> !Ask(t, api, i).Raised?
    ensures r.Success? ==> |r.value| == |t.records|
    ensures r.Success? ==> forall i :: 0 <= i < |t.records| ==>
      !Ask(t, api, i).Raised? && r.value[i] == Entry(Ask(t, api, i))
    ensures r.Failure? ==> r.error.row < |t.records| && Ask(t, api, r.error.row) == Raised(r.error.error)
    ensures r.Failure? ==> forall i :: 0 <= i < r.error.row ==> !Ask(t, api, i).Raised?
  {
    var names: seq<Option<string>> := [];
    for index := 0 to |t.records|
      invariant |names| == index
      invariant forall i :: 0 <= i < index ==> !Ask(t, api, i).Raised? && names[i] == Entry(Ask(t, api, i))
    {
      var row := RowAt(t, index);
      var standard, features := GetFeatures(row);
      var output := api(standard, features);
      assert output == Ask(t, api, index);
      if output.Raised? {
        return Failure(Aborted(index, output.error));
      }
      names := names + [Entry(output)];
    }
    return Success(names);
  }
}
