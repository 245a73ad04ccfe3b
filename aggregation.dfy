/**
 * The aggregation loop of the program's `main` (main.go:47-57): every line
 * is split by ParseLine and folded into a map from city to Measurement.
 *
 * Summarize is the specification of the loop: a left fold of Update over
 * the parsed records. Beside it stand independent reference definitions
 * (the cities that occur, the values of one city, their count, least,
 * greatest value and sum) and the lemmas that connect the two.
 */
module Aggregation {
  import opened Wrappers
  import opened Measurements
  import opened Lines

  /** A panic of the loop: the index of the offending line and its reason. */
  datatype Failure = Failure(line: nat, reason: LineError)

  /**
   * Parses the lines in order. The first line that ParseLine rejects makes
   * the whole run fail, as the source panics on it.
   */
  function ParseAll(lines: seq<string>, parse: string -> Option<int>): (r: Result<seq<Record>, Failure>)
    ensures r.Ok? ==>
              && |r.value| == |lines|
              && forall i :: 0 <= i < |lines| ==> ParseLine(lines[i], parse) == Ok(r.value[i])
    ensures r.Err? ==>
              && r.error.line < |lines|
              && ParseLine(lines[r.error.line], parse) == Err(r.error.reason)
              && forall i :: 0 <= i < r.error.line ==> ParseLine(lines[i], parse).Ok?
  {
    if |lines| == 0 then Ok([])
    else
      var last := |lines| - 1;
      var front := lines[..last];
      assert forall i :: 0 <= i < last ==> front[i] == lines[i];
      match ParseAll(front, parse)
      case Err(e) => Err(e)
      case Ok(rs) =>
        match ParseLine(lines[last], parse)
        case Err(why) => Err(Failure(last, why))
        case Ok(rec) =>
          AcceptedExtend(lines, rs, rec, parse);
          Ok(rs + [rec])
  }

  /** One more accepted line extends the records line by line. */
  lemma AcceptedExtend(lines: seq<string>, rs: seq<Record>, rec: Record, parse: string -> Option<int>)
    requires |lines| == |rs| + 1
    requires forall i :: 0 <= i < |rs| ==> ParseLine(lines[i], parse) == Ok(rs[i])
    requires ParseLine(lines[|rs|], parse) == Ok(rec)
    ensures forall i :: 0 <= i < |lines| ==> ParseLine(lines[i], parse) == Ok((rs + [rec])[i])
  {
    forall i | 0 <= i < |lines|
      ensures ParseLine(lines[i], parse) == Ok((rs + [rec])[i])
    {
      if i < |rs| {
        assert (rs + [rec])[i] == rs[i];
      }
    }
  }

  /**
   * One iteration of the loop: the entry for the record's city is created or
   * merged, and no other entry changes.
   */
  function Update(data: map<string, Measurement>, rec: Record): (d: map<string, Measurement>)
    ensures d.Keys == data.Keys + {rec.city}
    ensures rec.city in data ==> d[rec.city] == MergeMeasurement(data[rec.city], rec.value)
    ensures rec.city !in data ==> d[rec.city] == NewMeasurement(rec.value)
    ensures forall c :: c in data && c != rec.city ==> d[c] == data[c]
  {
    if rec.city in data then data[rec.city := MergeMeasurement(data[rec.city], rec.value)]
    else data[rec.city := NewMeasurement(rec.value)]
  }

  /** The map after the loop has seen `rs`, in order. */
  function Summarize(rs: seq<Record>): (d: map<string, Measurement>)
    ensures forall c :: c in d ==> Valid(d[c])
  {
    if |rs| == 0 then map[] else Update(Summarize(rs[..|rs| - 1]), rs[|rs| - 1])
  }

  // ---------------------------------------------------------------------
  // Reference definitions

  /** The cities that occur in `rs`. */
  function Cities(rs: seq<Record>): set<string>
  {
    set i | 0 <= i < |rs| :: rs[i].city
  }

  /** The values observed for `city`, in input order. */
  function ValuesOf(rs: seq<Record>, city: string): (vs: seq<int>)
    ensures |vs| <= |rs|
  {
    if |rs| == 0 then []
    else
      var front := ValuesOf(rs[..|rs| - 1], city);
      if rs[|rs| - 1].city == city then front + [rs[|rs| - 1].value] else front
  }

  /** The least element of a non-empty sequence. */
  function SeqMin(s: seq<int>): (r: int)
    requires |s| > 0
    ensures r in s
    ensures forall i :: 0 <= i < |s| ==> r <= s[i]
  {
    if |s| == 1 then s[0] else Min(SeqMin(s[..|s| - 1]), s[|s| - 1])
  }

  /** The greatest element of a non-empty sequence. */
  function SeqMax(s: seq<int>): (r: int)
    requires |s| > 0
    ensures r in s
    ensures forall i :: 0 <= i < |s| ==> s[i] <= r
  {
    if |s| == 1 then s[0] else Max(SeqMax(s[..|s| - 1]), s[|s| - 1])
  }

  /** The sum of a sequence. */
  function SeqSum(s: seq<int>): int
  {
    if |s| == 0 then 0 else SeqSum(s[..|s| - 1]) + s[|s| - 1]
  }

  /** Every observed value is a finite float64. */
  predicate AllFinite(rs: seq<Record>)
  {
    forall i :: 0 <= i < |rs| ==> Finite(rs[i].value)
  }

  // ---------------------------------------------------------------------
  // Lemmas

  /** A value of `city` is exactly the value of some record of `city`. */
  lemma {:induction false} ValuesOfMember(rs: seq<Record>, city: string, v: int)
    ensures v in ValuesOf(rs, city) <==> exists i :: 0 <= i < |rs| && rs[i].city == city && rs[i].value == v
  {
    if |rs| > 0 {
      var front := rs[..|rs| - 1];
      ValuesOfMember(front, city, v);
      if v in ValuesOf(front, city) {
        var i :| 0 <= i < |front| && front[i].city == city && front[i].value == v;
        assert rs[i] == front[i];
      }
      if exists i :: 0 <= i < |rs| && rs[i].city == city && rs[i].value == v {
        var i :| 0 <= i < |rs| && rs[i].city == city && rs[i].value == v;
        if i < |front| {
          assert front[i] == rs[i];
        }
      }
    }
  }

  /** A city has values exactly when it occurs. */
  lemma {:induction false} ValuesOfNonEmpty(rs: seq<Record>, city: string)
    ensures |ValuesOf(rs, city)| > 0 <==> city in Cities(rs)
  {
    if |rs| > 0 {
      var front := rs[..|rs| - 1];
      ValuesOfNonEmpty(front, city);
      assert Cities(rs) == Cities(front) + {rs[|rs| - 1].city} by {
        forall c | c in Cities(rs) ensures c in Cities(front) + {rs[|rs| - 1].city} {
          var i :| 0 <= i < |rs| && rs[i].city == c;
          if i < |front| { assert front[i] == rs[i]; }
        }
        forall c | c in Cities(front) ensures c in Cities(rs) {
          var i :| 0 <= i < |front| && front[i].city == c;
          assert rs[i] == front[i];
        }
      }
    }
  }

  /** After the loop the map has a key exactly for each city that occurs. */
  lemma {:induction false} SummarizeKeys(rs: seq<Record>)
    ensures Summarize(rs).Keys == Cities(rs)
  {
    if |rs| > 0 {
      var front := rs[..|rs| - 1];
      SummarizeKeys(front);
      forall c ensures c in Cities(rs) <==> c in Cities(front) + {rs[|rs| - 1].city} {
        ValuesOfNonEmpty(rs, c);
        ValuesOfNonEmpty(front, c);
      }
    }
  }

  /**
   * The entry of a city counts its lines and adds up its values; when every
   * value is finite it holds their least and greatest.
   */
  lemma {:induction false} SummarizeEntry(rs: seq<Record>, city: string)
    requires city in Summarize(rs)
    ensures var m := Summarize(rs)[city];
            var vs := ValuesOf(rs, city);
            && |vs| > 0
            && Valid(m)
            && m.total == |vs|
            && m.sum == SeqSum(vs)
            && (AllFinite(rs) ==> m.min == SeqMin(vs) && m.max == SeqMax(vs))
  {
    var front := rs[..|rs| - 1];
    var last := rs[|rs| - 1];
    var vs := ValuesOf(rs, city);
    assert AllFinite(rs) ==> AllFinite(front);
    if last.city != city {
      SummarizeEntry(front, city);
    } else if city in Summarize(front) {
      SummarizeEntry(front, city);
      assert vs[..|vs| - 1] == ValuesOf(front, city);
    } else {
      SummarizeKeys(front);
      ValuesOfNonEmpty(front, city);
      assert vs == [last.value];
    }
  }

  /**
   * The minimum and maximum of a city are bounds of all its values and are
   * themselves observed values of that city.
   */
  lemma ExtremaObserved(rs: seq<Record>, city: string)
    requires AllFinite(rs)
    requires city in Cities(rs)
    ensures city in Summarize(rs)
    ensures forall i :: 0 <= i < |rs| && rs[i].city == city ==>
              Summarize(rs)[city].min <= rs[i].value <= Summarize(rs)[city].max
    ensures exists i :: 0 <= i < |rs| && rs[i].city == city && rs[i].value == Summarize(rs)[city].min
    ensures exists i :: 0 <= i < |rs| && rs[i].city == city && rs[i].value == Summarize(rs)[city].max
  {
    SummarizeKeys(rs);
    SummarizeEntry(rs, city);
    var m := Summarize(rs)[city];
    var vs := ValuesOf(rs, city);
    ValuesOfMember(rs, city, m.min);
    ValuesOfMember(rs, city, m.max);
    forall i | 0 <= i < |rs| && rs[i].city == city
      ensures m.min <= rs[i].value <= m.max
    {
      ValuesOfMember(rs, city, rs[i].value);
    }
  }

  /** Once a prefix of the input fails, the whole input fails the same way. */
  lemma {:induction false} ParseAllFailureSticks(lines: seq<string>, n: nat, parse: string -> Option<int>)
    requires n <= |lines|
    requires ParseAll(lines[..n], parse).Err?
    ensures ParseAll(lines, parse) == ParseAll(lines[..n], parse)
  {
    if n < |lines| {
      var last := |lines| - 1;
      assert lines[..last][..n] == lines[..n];
      ParseAllFailureSticks(lines[..last], n, parse);
    } else {
      assert lines[..n] == lines;
    }
  }

  /** One more accepted line extends the parsed records by one. */
  lemma ParseAllStep(lines: seq<string>, n: nat, rs: seq<Record>, rec: Record, parse: string -> Option<int>)
    requires n < |lines|
    requires ParseAll(lines[..n], parse) == Ok(rs)
    requires ParseLine(lines[n], parse) == Ok(rec)
    ensures ParseAll(lines[..n + 1], parse) == Ok(rs + [rec])
  {
    assert lines[..n + 1][..n] == lines[..n];
  }

  /** A rejected line after an accepted prefix is where the whole run fails. */
  lemma ParseAllStopsAt(lines: seq<string>, n: nat, rs: seq<Record>, parse: string -> Option<int>)
    requires n < |lines|
    requires ParseAll(lines[..n], parse) == Ok(rs)
    requires ParseLine(lines[n], parse).Err?
    ensures ParseAll(lines, parse) == Err(Failure(n, ParseLine(lines[n], parse).error))
  {
    assert lines[..n + 1][..n] == lines[..n];
    ParseAllFailureSticks(lines, n + 1, parse);
  }

  /** One more record is one more Update. */
  lemma SummarizeStep(rs: seq<Record>, rec: Record)
    ensures Summarize(rs + [rec]) == Update(Summarize(rs), rec)
  {
    assert (rs + [rec])[..|rs|] == rs;
  }

  // ---------------------------------------------------------------------
  // The loop

  /**
   * The `for sc.Scan()` loop over the lines of the input. It either panics
   * on the first malformed line or ends with the map Summarize describes.
   */
  method AggregateLines(lines: seq<string>, parse: string -> Option<int>)
    returns (res: Result<map<string, Measurement>, Failure>)
    ensures ParseAll(lines, parse).Err? ==> res == Err(ParseAll(lines, parse).error)
    ensures ParseAll(lines, parse).Ok? ==> res == Ok(Summarize(ParseAll(lines, parse).value))
  {
    var data: map<string, Measurement> := map[];
    ghost var seen: seq<Record> := [];
    var i := 0;
    while i < |lines|
      invariant 0 <= i <= |lines|
      invariant ParseAll(lines[..i], parse) == Ok(seen)
      invariant data == Summarize(seen)
    {
      var parsed := ParseLine(lines[i], parse);
      if parsed.Err? {
        ParseAllStopsAt(lines, i, seen, parse);
        return Err(Failure(i, parsed.error));
      }
      var city, measurement := parsed.value.city, parsed.value.value;
      ParseAllStep(lines, i, seen, parsed.value, parse);
      SummarizeStep(seen, parsed.value);
      if city in data {
        data := data[city := MergeMeasurement(data[city], measurement)];
      } else {
        data := data[city := NewMeasurement(measurement)];
      }
      seen := seen + [parsed.value];
      i := i + 1;
    }
    assert lines[..i] == lines;
    return Ok(data);
  }
}
