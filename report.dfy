/**
 * The report of the program (main.go:62-70): `{`, one `key=min/avg/max`
 * entry per key separated by single spaces, then `}` and a newline.
 *
 * The minimum and the maximum are printed with FormatTenths. The average,
 * `%.1f` of the float64 quotient Sum/float64(Total), is a parameter `avg`
 * of the model: float64 division and rounding lie outside it.
 */
module Report {
  import opened Wrappers
  import opened Measurements
  import opened Lines
  import opened Decimal

  /** Go's `data[key]`: the entry, or the zero Measurement for a missing key. */
  function Lookup(data: map<string, Measurement>, key: string): Measurement
  {
    if key in data then data[key] else Measurement(0, 0, 0, 0)
  }

  /** The `%s=%.1f/%.1f/%.1f` text of one key. */
  function Entry(key: string, m: Measurement, avg: Measurement -> string): string
  {
    key + "=" + FormatTenths(m.min) + "/" + avg(m) + "/" + FormatTenths(m.max)
  }

  /** Neither `=` nor `/` occurs in the text of a value. */
  lemma FormatTenthsPlain(v: int)
    ensures '=' !in FormatTenths(v) && '/' !in FormatTenths(v)
  {
  }

  lemma EntryKey(key: string, m: Measurement, avg: Measurement -> string)
    requires '=' !in key
    ensures FirstIndex(Entry(key, m, avg), '=') == |key|
  {
    var lo := FormatTenths(m.min);
    var tail := lo + "/" + avg(m) + "/" + FormatTenths(m.max);
    assert Entry(key, m, avg) == key + ['='] + tail;
    FirstIndexJoin(key, '=', tail);
  }

  lemma EntryMin(key: string, m: Measurement, avg: Measurement -> string)
    ensures var rest := Entry(key, m, avg)[|key| + 1..];
            FirstIndex(rest, '/') == |FormatTenths(m.min)|
            && rest[..|FormatTenths(m.min)|] == FormatTenths(m.min)
  {
    var lo := FormatTenths(m.min);
    var rest := Entry(key, m, avg)[|key| + 1..];
    var after := avg(m) + "/" + FormatTenths(m.max);
    assert rest == lo + ['/'] + after;
    FormatTenthsPlain(m.min);
    FirstIndexJoin(lo, '/', after);
  }

  lemma EntryMax(key: string, m: Measurement, avg: Measurement -> string)
    ensures var e := Entry(key, m, avg);
            LastIndex(e, '/') == |e| - |FormatTenths(m.max)| - 1
            && e[LastIndex(e, '/') + 1..] == FormatTenths(m.max)
  {
    var hi := FormatTenths(m.max);
    var head := key + "=" + FormatTenths(m.min) + "/" + avg(m);
    assert Entry(key, m, avg) == head + ['/'] + hi;
    FormatTenthsPlain(m.max);
    LastIndexJoin(head, '/', hi);
  }

  /**
   * An entry reads back: for a key without `=`, the text before the first
   * `=` is the key, the text from there to the next `/` is the minimum, and
   * the text after the last `/` is the maximum, whatever the average text
   * holds.
   */
  lemma EntryReadsBack(key: string, m: Measurement, avg: Measurement -> string)
    requires '=' !in key
    ensures var e := Entry(key, m, avg);
            var i := FirstIndex(e, '=');
            i == |key| && e[..i] == key
    ensures var e := Entry(key, m, avg);
            var rest := e[|key| + 1..];
            var j := FirstIndex(rest, '/');
            0 <= j && ParseTenths(rest[..j]) == Some(m.min)
    ensures var e := Entry(key, m, avg);
            var k := LastIndex(e, '/');
            0 <= k && ParseTenths(e[k + 1..]) == Some(m.max)
  {
    EntryKey(key, m, avg);
    EntryMin(key, m, avg);
    EntryMax(key, m, avg);
    FormatTenthsRoundTrip(m.min);
    FormatTenthsRoundTrip(m.max);
  }

  /** The entries of the keys, in the order of the keys. */
  function Entries(data: map<string, Measurement>, keys: seq<string>, avg: Measurement -> string): seq<string>
  {
    seq(|keys|, i requires 0 <= i < |keys| => Entry(keys[i], Lookup(data, keys[i]), avg))
  }

  /**
   * Every key of the report comes from the map, so `data[key]` at main.go:64
   * always finds the stored entry and Go's zero Measurement never reaches the
   * output; when the map's entries are all Valid, so is every entry printed.
   */
  lemma ReportUsesStoredEntries(data: map<string, Measurement>, keys: seq<string>, avg: Measurement -> string)
    requires forall k :: k in keys ==> k in data
    ensures forall i :: 0 <= i < |keys| ==> Entries(data, keys, avg)[i] == Entry(keys[i], data[keys[i]], avg)
    ensures (forall k :: k in data ==> Valid(data[k])) ==>
              forall i :: 0 <= i < |keys| ==> Valid(Lookup(data, keys[i])) && Lookup(data, keys[i]) != Measurement(0, 0, 0, 0)
  {
    forall i | 0 <= i < |keys|
      ensures Lookup(data, keys[i]) == data[keys[i]]
    {
      assert keys[i] in keys;
    }
  }

  /** The strings joined with one space between neighbours. */
  function JoinSpaces(xs: seq<string>): string
  {
    if |xs| == 0 then ""
    else if |xs| == 1 then xs[0]
    else JoinSpaces(xs[..|xs| - 1]) + " " + xs[|xs| - 1]
  }

  /** The strings one after another. */
  function Concat(xs: seq<string>): string
  {
    if |xs| == 0 then "" else Concat(xs[..|xs| - 1]) + xs[|xs| - 1]
  }

  /** A run of `n` spaces. */
  function Spaces(n: nat): string
  {
    seq(n, _ => ' ')
  }

  /** The text of the report for a key order. */
  function ReportText(data: map<string, Measurement>, keys: seq<string>, avg: Measurement -> string): string
  {
    "{" + JoinSpaces(Entries(data, keys, avg)) + "}\n"
  }

  // ---------------------------------------------------------------------
  // Lemmas about the separators

  /** A join of `n` strings is `n - 1` characters longer than their concatenation. */
  lemma {:induction false} JoinSpacesLength(xs: seq<string>)
    requires |xs| > 0
    ensures |JoinSpaces(xs)| == |Concat(xs)| + |xs| - 1
  {
    if |xs| > 1 {
      JoinSpacesLength(xs[..|xs| - 1]);
    }
  }

  /**
   * Between any two neighbouring entries there is exactly one space: the join
   * splits at every boundary into the join of the entries before it, one
   * space and the join of the entries after it.
   */
  lemma {:induction false} JoinSpacesSplit(xs: seq<string>, i: nat)
    requires 0 < i < |xs|
    ensures JoinSpaces(xs) == JoinSpaces(xs[..i]) + " " + JoinSpaces(xs[i..])
  {
    var n := |xs|;
    var front := xs[..n - 1];
    if i == n - 1 {
      assert xs[i..] == [xs[n - 1]];
      assert xs[..i] == front;
    } else {
      JoinSpacesSplit(front, i);
      assert front[..i] == xs[..i];
      assert xs[i..][..|xs[i..]| - 1] == front[i..];
      assert xs[i..][|xs[i..]| - 1] == xs[n - 1];
    }
  }

  /** Adding one entry to a join: after the first entry, a space and the entry. */
  lemma JoinSpacesStep(xs: seq<string>, i: nat)
    requires i < |xs|
    ensures JoinSpaces(xs[..i + 1]) == if i == 0 then xs[0] else JoinSpaces(xs[..i]) + " " + xs[i]
  {
    assert xs[..i + 1][..i] == xs[..i];
  }

  /**
   * One turn of the output loop: the entry, then a space unless it is the
   * last, extends the text by one entry of the join.
   */
  lemma OutputStep(es: seq<string>, i: nat, acc: string)
    requires i < |es|
    requires acc == "{" + JoinSpaces(es[..i]) + (if 0 < i < |es| then " " else "")
    ensures acc + es[i] + (if i != |es| - 1 then " " else "")
            == "{" + JoinSpaces(es[..i + 1]) + (if 0 < i + 1 < |es| then " " else "")
  {
    JoinSpacesStep(es, i);
  }

  /** Adding one string to a concatenation. */
  lemma ConcatStep(xs: seq<string>, i: nat)
    requires i < |xs|
    ensures Concat(xs[..i + 1]) == Concat(xs[..i]) + xs[i]
  {
    assert xs[..i + 1][..i] == xs[..i];
  }

  /**
   * The report for an empty map is `{}` and a newline; for `n` keys it is
   * `n - 1` characters longer than the entries, the braces and the newline.
   */
  lemma ReportLength(data: map<string, Measurement>, keys: seq<string>, avg: Measurement -> string)
    ensures |keys| == 0 ==> ReportText(data, keys, avg) == "{}\n"
    ensures |keys| > 0 ==>
              |ReportText(data, keys, avg)| == |Concat(Entries(data, keys, avg))| + |keys| - 1 + 3
  {
    if |keys| > 0 {
      JoinSpacesLength(Entries(data, keys, avg));
    }
  }

  // ---------------------------------------------------------------------
  // The output loop

  /**
   * The output loop written to a single stream: the braces, the entries in
   * key order and a space after every entry but the last.
   */
  method Render(data: map<string, Measurement>, keys: seq<string>, avg: Measurement -> string)
    returns (out: string)
    ensures out == ReportText(data, keys, avg)
  {
    ghost var es := Entries(data, keys, avg);
    var n := |keys|;
    out := "{";
    var i := 0;
    while i < n
      invariant 0 <= i <= n
      invariant out == "{" + JoinSpaces(es[..i]) + (if 0 < i < n then " " else "")
    {
      var measure := Lookup(data, keys[i]);
      OutputStep(es, i, out);
      out := out + Entry(keys[i], measure, avg);
      if i != n - 1 {
        out := out + " ";
      }
      i := i + 1;
    }
    assert es[..n] == es;
    out := out + "}\n";
  }

  // ---------------------------------------------------------------------
  // The output loop as written: two streams

  /** Go's builtin `print` writes to standard error, fmt.Printf to standard output. */
  datatype Stream = Stdout | Stderr

  datatype Write = Write(stream: Stream, text: string)

  /** Everything written, in order, on whichever stream. */
  function Emitted(ws: seq<Write>): string
  {
    if |ws| == 0 then "" else Emitted(ws[..|ws| - 1]) + ws[|ws| - 1].text
  }

  /** What one stream receives. */
  function On(ws: seq<Write>, s: Stream): string
  {
    if |ws| == 0 then ""
    else On(ws[..|ws| - 1], s) + (if ws[|ws| - 1].stream == s then ws[|ws| - 1].text else "")
  }

  /** Extending the writes extends both views. */
  lemma WritesStep(ws: seq<Write>, w: Write)
    ensures Emitted(ws + [w]) == Emitted(ws) + w.text
    ensures On(ws + [w], Stdout) == On(ws, Stdout) + (if w.stream == Stdout then w.text else "")
    ensures On(ws + [w], Stderr) == On(ws, Stderr) + (if w.stream == Stderr then w.text else "")
  {
    assert (ws + [w])[..|ws|] == ws;
  }

  /** The writes of the output loop as written, after its first `i` turns. */
  function LoopWrites(es: seq<string>, i: nat): seq<Write>
    requires i <= |es|
  {
    if i == 0 then [Write(Stderr, "{")]
    else
      LoopWrites(es, i - 1) + [Write(Stdout, es[i - 1])]
      + (if i - 1 != |es| - 1 then [Write(Stderr, " ")] else [])
  }

  /**
   * After `i` turns, the writes in emission order are `{` and the first `i`
   * entries joined by spaces; standard output holds only those entries and
   * standard error only `{` and the spaces.
   */
  lemma {:induction false} LoopWritesViews(es: seq<string>, i: nat)
    requires i <= |es|
    ensures Emitted(LoopWrites(es, i)) == "{" + JoinSpaces(es[..i]) + (if 0 < i < |es| then " " else "")
    ensures On(LoopWrites(es, i), Stdout) == Concat(es[..i])
    ensures On(LoopWrites(es, i), Stderr) == "{" + Spaces(if i == |es| && i > 0 then i - 1 else i)
  {
    if i == 0 {
      WritesStep([], Write(Stderr, "{"));
      assert LoopWrites(es, 0) == [] + [Write(Stderr, "{")];
    } else {
      LoopWritesViews(es, i - 1);
      LoopWritesTurn(es, i);
    }
  }

  /** One turn of the loop extends the three views as LoopWritesViews states. */
  lemma LoopWritesTurn(es: seq<string>, i: nat)
    requires 0 < i <= |es|
    requires Emitted(LoopWrites(es, i - 1)) == "{" + JoinSpaces(es[..i - 1]) + (if 0 < i - 1 then " " else "")
    requires On(LoopWrites(es, i - 1), Stdout) == Concat(es[..i - 1])
    requires On(LoopWrites(es, i - 1), Stderr) == "{" + Spaces(i - 1)
    ensures Emitted(LoopWrites(es, i)) == "{" + JoinSpaces(es[..i]) + (if i < |es| then " " else "")
    ensures On(LoopWrites(es, i), Stdout) == Concat(es[..i])
    ensures On(LoopWrites(es, i), Stderr) == "{" + Spaces(if i == |es| then i - 1 else i)
  {
    var before := LoopWrites(es, i - 1);
    OutputStep(es, i - 1, Emitted(before));
    ConcatStep(es, i - 1);
    WritesStep(before, Write(Stdout, es[i - 1]));
    var mid := before + [Write(Stdout, es[i - 1])];
    if i - 1 != |es| - 1 {
      assert LoopWrites(es, i) == mid + [Write(Stderr, " ")];
      WritesStep(mid, Write(Stderr, " "));
      assert Spaces(i - 1) + " " == Spaces(i);
    } else {
      assert LoopWrites(es, i) == mid;
    }
  }

  /**
   * The output loop exactly as main.go:62-70 has it: `print` for the braces
   * and the separators, fmt.Printf for the entries.
   */
  method RenderAsWritten(data: map<string, Measurement>, keys: seq<string>, avg: Measurement -> string)
    returns (writes: seq<Write>)
    ensures writes == LoopWrites(Entries(data, keys, avg), |keys|) + [Write(Stderr, "}\n")]
  {
    ghost var es := Entries(data, keys, avg);
    var n := |keys|;
    writes := [Write(Stderr, "{")];
    var i := 0;
    while i < n
      invariant 0 <= i <= n
      invariant writes == LoopWrites(es, i)
    {
      var measure := Lookup(data, keys[i]);
      ghost var before := writes;
      writes := writes + [Write(Stdout, Entry(keys[i], measure, avg))];
      if i != n - 1 {
        writes := writes + [Write(Stderr, " ")];
      }
      assert writes == LoopWrites(es, i + 1) by {
        assert es[i] == Entry(keys[i], measure, avg);
      }
      i := i + 1;
    }
    writes := writes + [Write(Stderr, "}\n")];
  }

  /**
   * Taken in emission order, the pieces written as main.go has it make up the
   * report; standard output receives only the entries, run together, and
   * standard error the braces and the spaces.
   */
  lemma AsWrittenStreams(data: map<string, Measurement>, keys: seq<string>, avg: Measurement -> string)
    ensures Emitted(LoopWrites(Entries(data, keys, avg), |keys|) + [Write(Stderr, "}\n")])
            == ReportText(data, keys, avg)
    ensures On(LoopWrites(Entries(data, keys, avg), |keys|) + [Write(Stderr, "}\n")], Stdout)
            == Concat(Entries(data, keys, avg))
    ensures On(LoopWrites(Entries(data, keys, avg), |keys|) + [Write(Stderr, "}\n")], Stderr)
            == "{" + Spaces(if |keys| == 0 then 0 else |keys| - 1) + "}\n"
  {
    FinishedWrites(Entries(data, keys, avg));
  }

  /** AsWrittenStreams for any list of entries. */
  lemma FinishedWrites(es: seq<string>)
    ensures Emitted(LoopWrites(es, |es|) + [Write(Stderr, "}\n")]) == "{" + JoinSpaces(es) + "}\n"
    ensures On(LoopWrites(es, |es|) + [Write(Stderr, "}\n")], Stdout) == Concat(es)
    ensures On(LoopWrites(es, |es|) + [Write(Stderr, "}\n")], Stderr)
            == "{" + Spaces(if |es| == 0 then 0 else |es| - 1) + "}\n"
  {
    var ws := LoopWrites(es, |es|);
    var close := Write(Stderr, "}\n");
    LoopWritesViews(es, |es|);
    WritesStep(ws, close);
    assert es[..|es|] == es;
    var j := JoinSpaces(es);
    assert Emitted(ws) == "{" + j;
    assert Emitted(ws + [close]) == "{" + j + "}\n";
    var sp := Spaces(if |es| == 0 then 0 else |es| - 1);
    assert On(ws, Stderr) == "{" + sp;
    assert On(ws + [close], Stderr) == "{" + sp + "}\n";
  }

  /**
   * Whatever the input, standard output as written never holds the report:
   * it lacks the braces and the separators.
   */
  lemma AsWrittenStdoutIsNotTheReport(data: map<string, Measurement>, keys: seq<string>, avg: Measurement -> string)
    ensures On(LoopWrites(Entries(data, keys, avg), |keys|) + [Write(Stderr, "}\n")], Stdout)
            != ReportText(data, keys, avg)
  {
    AsWrittenStreams(data, keys, avg);
    ReportLength(data, keys, avg);
  }
}
