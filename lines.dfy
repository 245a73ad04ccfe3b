/**
 * Splitting one input line `city;value` into a city and a parsed value
 * (ParseLine in main.go).
 *
 * The number parser, Go's strconv.ParseFloat, is a library routine outside
 * the model: it is a parameter `parse` that yields Some(value) where
 * ParseFloat succeeds and None where it returns an error.
 */
module Lines {
  import opened Wrappers

  /** One parsed line: a city and its observed value (in tenths). */
  datatype Record = Record(city: string, value: int)

  /** How ParseLine fails; in the source both are panics. */
  datatype LineError =
    | MissingSeparator   // `split[1]` is out of range: the line has no `;`
    | BadNumber          // ParseFloat rejected the text after the first `;`

  /** The position of the first `c` in `s`, or -1 when there is none (strings.Index). */
  function FirstIndex(s: string, c: char): (r: int)
    ensures -1 <= r < |s|
    ensures r == -1 <==> c !in s
    ensures r >= 0 ==> s[r] == c && c !in s[..r]
  {
    if |s| == 0 then -1
    else if s[0] == c then 0
    else
      var t := FirstIndex(s[1..], c);
      if t == -1 then -1
      else
        assert s[..t + 1] == [s[0]] + s[1..][..t];
        t + 1
  }

  /** The position of the last `c` in `s`, or -1 when there is none. */
  function LastIndex(s: string, c: char): (r: int)
    ensures -1 <= r < |s|
    ensures r == -1 <==> c !in s
    ensures r >= 0 ==> s[r] == c && c !in s[r + 1..]
  {
    if |s| == 0 then -1
    else if s[|s| - 1] == c then |s| - 1
    else
      var t := LastIndex(s[..|s| - 1], c);
      if t == -1 then -1
      else
        assert s[t + 1..] == s[..|s| - 1][t + 1..] + [s[|s| - 1]];
        t
  }

  lemma FirstIndexJoin(a: string, c: char, b: string)
    requires c !in a
    ensures FirstIndex(a + [c] + b, c) == |a|
  {
    var s := a + [c] + b;
    assert s[|a|] == c;
    assert s[..|a|] == a;
  }

  lemma LastIndexJoin(a: string, c: char, b: string)
    requires c !in b
    ensures LastIndex(a + [c] + b, c) == |a|
  {
    var s := a + [c] + b;
    assert s[|a|] == c;
    assert s[|a| + 1..] == b;
  }

  /**
   * strings.SplitN(s, ";", 2): the whole line when it has no `;`, otherwise
   * the text before the first `;` and everything after it.
   */
  function SplitOnce(s: string): (r: seq<string>)
    ensures |r| == 1 <==> ';' !in s
    ensures |r| == 1 ==> r[0] == s
    ensures |r| == 1 || |r| == 2
    ensures |r| == 2 ==> ';' !in r[0] && r[0] + [';'] + r[1] == s
  {
    var k := FirstIndex(s, ';');
    if k == -1 then [s]
    else
      assert s[..k] + [';'] + s[k + 1..] == s[..k] + s[k..];
      [s[..k], s[k + 1..]]
  }

  /**
   * ParseLine: the city is the text before the first `;`, the value is what
   * `parse` makes of everything after it.
   */
  function ParseLine(line: string, parse: string -> Option<int>): (r: Result<Record, LineError>)
    ensures r == Err(MissingSeparator) <==> ';' !in line
    ensures r.Ok? ==>
              var c := r.value.city;
              && |c| < |line| && line[..|c|] == c && line[|c|] == ';' && ';' !in c
              && parse(line[|c| + 1..]) == Some(r.value.value)
    ensures r == Err(BadNumber) <==> ';' in line && parse(line[FirstIndex(line, ';') + 1..]).None?
  {
    var split := SplitOnce(line);
    if |split| < 2 then Err(MissingSeparator)
    else
      assert split[1] == line[FirstIndex(line, ';') + 1..];
      match parse(split[1])
      case None => Err(BadNumber)
      case Some(v) => Ok(Record(split[0], v))
  }

  /**
   * The converse of ParseLine: writing a `;`-free city, a `;` and any text the
   * parser accepts gives back that city and value, even when the text itself
   * holds further `;` characters.
   */
  lemma ParseLineJoin(city: string, rest: string, parse: string -> Option<int>)
    requires ';' !in city
    requires parse(rest).Some?
    ensures ParseLine(city + [';'] + rest, parse) == Ok(Record(city, parse(rest).value))
  {
    var line := city + [';'] + rest;
    FirstIndexJoin(city, ';', rest);
    assert line[..|city|] == city;
    assert line[|city| + 1..] == rest;
  }
}
