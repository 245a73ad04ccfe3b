/**
 * The program's `main` (main.go:40-71) from the first line of input to the
 * report: aggregate, collect and sort the keys, render.
 *
 * Opening the file and the line scanner are outside the model: the input is
 * the sequence of its lines. A panic is the Err outcome, and then no part
 * of the report is printed.
 */
module Program {
  import opened Wrappers
  import opened Measurements
  import opened Lines
  import opened Decimal
  import opened Aggregation
  import opened Keys
  import opened Report

  /** main.go:59-70: the keys collected, sorted, and the report rendered. */
  method PrintSummary(data: map<string, Measurement>, avg: Measurement -> string) returns (out: string)
    ensures exists keys :: Ascending(keys) && (forall k :: k in keys <==> k in data)
                           && out == ReportText(data, keys, avg)
  {
    var collected := CollectKeys(data);
    var keys := new string[|collected|](i requires 0 <= i < |collected| => collected[i]);
    assert keys[..] == collected;
    SortKeys(keys);
    var sorted := keys[..];
    assert Ascending(sorted) && (forall k :: k in sorted <==> k in data) by {
      SortedPermutationIsAscending(collected, sorted);
    }
    out := Render(data, sorted, avg);
  }

  /** The whole run: the aggregation loop, then the summary unless a line made it panic. */
  method Run(lines: seq<string>, parse: string -> Option<int>, avg: Measurement -> string)
    returns (res: Result<string, Failure>)
    ensures ParseAll(lines, parse).Err? ==> res == Err(ParseAll(lines, parse).error)
    ensures ParseAll(lines, parse).Ok? ==>
              var data := Summarize(ParseAll(lines, parse).value);
              && res.Ok?
              && exists keys :: Ascending(keys) && (forall k :: k in keys <==> k in data)
                                && res.value == ReportText(data, keys, avg)
  {
    var aggregated := AggregateLines(lines, parse);
    if aggregated.Err? {
      return Err(aggregated.error);
    }
    var out := PrintSummary(aggregated.value, avg);
    return Ok(out);
  }

  /**
   * The report depends on the map alone: any two strictly ascending lists of
   * its keys give the same text, whatever order the map handed them out in.
   */
  lemma ReportDeterministic(data: map<string, Measurement>, k1: seq<string>, k2: seq<string>, avg: Measurement -> string)
    requires Ascending(k1) && Ascending(k2)
    requires forall k :: k in k1 <==> k in data
    requires forall k :: k in k2 <==> k in data
    ensures ReportText(data, k1, avg) == ReportText(data, k2, avg)
  {
    AscendingUnique(k1, k2);
  }

  /** The number texts of a worked input, as the input format reads them. */
  lemma WorkedNumbers()
    ensures ParseTenths("12.3") == Some(123)
    ensures ParseTenths("7.8") == Some(78)
    ensures ParseTenths("-2.0") == Some(-20)
  {
    assert "1"[..0] == "" && "12"[..1] == "1" && "12.3"[..2] == "12";
    assert DigitsValue("1") == 1;
    assert DigitsValue("12") == 12;
    assert ParseUnsignedTenths("12.3") == Some(123);
    assert "7"[..0] == "" && "7.8"[..1] == "7";
    assert DigitsValue("7") == 7;
    assert ParseUnsignedTenths("7.8") == Some(78);
    assert "2"[..0] == "" && "2.0"[..1] == "2" && "-2.0"[1..] == "2.0";
    assert DigitsValue("2") == 2;
    assert ParseUnsignedTenths("2.0") == Some(20);
  }

  /**
   * The map of the worked input `Paris;12.3`, `Paris;7.8`, `Oslo;-2.0`: one
   * entry per city with its sum, minimum, maximum and count.
   */
  lemma WorkedSummary()
    ensures Summarize([Record("Paris", 123), Record("Paris", 78), Record("Oslo", -20)])
            == map["Paris" := Measurement(201, 78, 123, 2), "Oslo" := Measurement(-20, -20, -20, 1)]
  {
    var rs := [Record("Paris", 123), Record("Paris", 78), Record("Oslo", -20)];
    assert rs[..2][..1] == [Record("Paris", 123)] && rs[..2] == [Record("Paris", 123), Record("Paris", 78)];
    assert [Record("Paris", 123)][..0] == [];
    assert Summarize([Record("Paris", 123)]) == map["Paris" := Measurement(123, 123, 123, 1)];
    assert Summarize(rs[..2]) == map["Paris" := Measurement(201, 78, 123, 2)];
  }
}
