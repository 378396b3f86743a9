/**
 * The input loader of main.py: every line of the target file is stripped of
 * its surrounding newlines and split on the two-character delimiter `||`;
 * a line that gives exactly two fields becomes a record, any other line is
 * dropped with a warning.
 */
module InputLoader {
  import opened Records
  import PyStr

  const Delimiter: string := "||"

  /** The characters `strip("\n")` removes. */
  predicate IsNewline(c: char)
  {
    c == '\n'
  }

  /** `item.strip("\n")`. */
  function StripNewlines(line: string): string
  {
    PyStr.Strip(line, IsNewline)
  }

  /** One line: `username, birthday = item.strip("\n").split("||")`, with `None` where the unpacking raises. */
  function ParseLine(line: string): Option<InputRecord>
  {
    var fields := PyStr.Split(StripNewlines(line), Delimiter);
    if |fields| == 2 then Some(InputRecord(fields[0], fields[1])) else None
  }

  /** The present values, in order. */
  function Present<T>(xs: seq<Option<T>>): (r: seq<T>)
    ensures |r| <= |xs|
  {
    if xs == [] then []
    else Present(xs[..|xs| - 1]) + (if xs[|xs| - 1].Some? then [xs[|xs| - 1].value] else [])
  }

  lemma {:induction false} PresentAppend<T>(a: seq<Option<T>>, b: seq<Option<T>>)
    ensures Present(a + b) == Present(a) + Present(b)
    decreases |b|
  {
    if b == [] {
      assert a + b == a;
    } else {
      var init := b[..|b| - 1];
      assert (a + b)[..|a + b| - 1] == a + init;
      assert (a + b)[|a + b| - 1] == b[|b| - 1];
      PresentAppend(a, init);
    }
  }

  /** Every present value comes from some position of the input. */
  lemma {:induction false} PresentFrom<T>(xs: seq<Option<T>>)
    ensures forall v :: v in Present(xs) ==> exists k :: 0 <= k < |xs| && xs[k] == Some(v)
    decreases |xs|
  {
    if xs != [] {
      var init := xs[..|xs| - 1];
      PresentFrom(init);
      forall v | v in Present(xs)
        ensures exists k :: 0 <= k < |xs| && xs[k] == Some(v)
      {
        if v in Present(init) {
          var k :| 0 <= k < |init| && init[k] == Some(v);
          assert xs[k] == init[k];
        } else {
          assert xs[|xs| - 1] == Some(v);
        }
      }
    }
  }

  /** `f` applied to each element, in order. */
  function Each<A, B>(f: A -> B, xs: seq<A>): (r: seq<B>)
    ensures |r| == |xs|
    ensures forall k :: 0 <= k < |xs| ==> r[k] == f(xs[k])
  {
    seq(|xs|, k requires 0 <= k < |xs| => f(xs[k]))
  }

  lemma EachAppend<A, B>(f: A -> B, a: seq<A>, b: seq<A>)
    ensures Each(f, a + b) == Each(f, a) + Each(f, b)
  {
  }

  /** The parse of each line, one per line. */
  function ParseEach(lines: seq<string>): seq<Option<InputRecord>>
  {
    Each(ParseLine, lines)
  }

  /** The records of all lines, in line order (the list `get_target_data` builds). */
  function ParsedLines(lines: seq<string>): (records: seq<InputRecord>)
    ensures |records| <= |lines|
  {
    Present(ParseEach(lines))
  }

  /** One more line adds its record at the end when it parses, and nothing otherwise. */
  lemma ParsedLinesSnoc(lines: seq<string>, line: string)
    ensures ParsedLines(lines + [line]) ==
      ParsedLines(lines) + (if ParseLine(line).Some? then [ParseLine(line).value] else [])
  {
    EachAppend(ParseLine, lines, [line]);
    var p := ParseEach(lines + [line]);
    assert p[..|p| - 1] == ParseEach(lines);
  }

  /** The loop of `get_target_data` over the lines already read from the file. */
  method GetTargetData(lines: seq<string>) returns (userData: seq<InputRecord>)
    ensures userData == ParsedLines(lines)
    ensures |userData| <= |lines|
  {
    userData := [];
    for k := 0 to |lines|
      invariant userData == ParsedLines(lines[..k])
    {
      assert lines[..k + 1] == lines[..k] + [lines[k]];
      ParsedLinesSnoc(lines[..k], lines[k]);
      var parsed := ParseLine(lines[k]);
      if parsed.Some? {
        userData := userData + [parsed.value];
      }
      // otherwise the line is dropped and a warning is logged
    }
    assert lines[..|lines|] == lines;
  }

  // ---------------------------------------------------------------- properties of one line

  /**
   * Round trip: a username without `|` and a birthday without `||`, neither
   * with a newline at its outer end, joined by `||` and followed by any run
   * of newlines, parse back to exactly that record. Spaces, `\r` and other
   * whitespace stay inside the fields.
   */
  lemma ParseLineRoundTrip(u: string, b: string, eol: string)
    requires forall k :: 0 <= k < |u| ==> u[k] != '|'
    requires !PyStr.Contains(b, Delimiter)
    requires u == [] || u[0] != '\n'
    requires b == [] || b[|b| - 1] != '\n'
    requires forall k :: 0 <= k < |eol| ==> eol[k] == '\n'
    ensures ParseLine(u + Delimiter + b + eol) == Some(InputRecord(u, b))
  {
    var core := u + Delimiter + b;
    JoinedEnds(u, b);
    StripTrailingNewlines(core, eol);
    SplitJoined(u, b);
    ParseLineFields(core + eol, u, b);
  }

  /** A username without `|` and a birthday without `||`, joined by `||`, split back into the two. */
  lemma SplitJoined(u: string, b: string)
    requires forall k :: 0 <= k < |u| ==> u[k] != '|'
    requires !PyStr.Contains(b, Delimiter)
    ensures PyStr.Split(u + Delimiter + b, Delimiter) == [u, b]
  {
    PyStr.NoStartNoOccurrence(u, Delimiter + b, Delimiter);
    assert u + (Delimiter + b) == u + Delimiter + b;
    PyStr.SplitTwo(u, b, Delimiter);
  }

  /** A line whose stripped form splits into two fields parses to the record of those fields. */
  lemma ParseLineFields(line: string, u: string, b: string)
    requires PyStr.Split(StripNewlines(line), Delimiter) == [u, b]
    ensures ParseLine(line) == Some(InputRecord(u, b))
  {
  }

  /** Two fields joined by `||` start and end without a newline when the fields do. */
  lemma JoinedEnds(u: string, b: string)
    requires u == [] || u[0] != '\n'
    requires b == [] || b[|b| - 1] != '\n'
    ensures var core := u + Delimiter + b; core != [] && core[0] != '\n' && core[|core| - 1] != '\n'
  {
  }

  /** `strip("\n")` takes off a trailing run of newlines and leaves a core without outer newlines alone. */
  lemma StripTrailingNewlines(core: string, eol: string)
    requires core != [] && core[0] != '\n' && core[|core| - 1] != '\n'
    requires forall k :: 0 <= k < |eol| ==> eol[k] == '\n'
    ensures StripNewlines(core + eol) == core
  {
    PyStr.StripRightSuffix(core, eol, IsNewline);
    assert (core + eol)[0] == core[0];
    assert PyStr.StripLeft(core + eol, IsNewline) == core + eol;
    assert PyStr.StripRight(core, IsNewline) == core;
  }

  /** Inverse direction: a parsed line is, once stripped, its two fields joined by `||`, and neither field holds `||`. */
  lemma ParseLineInverse(line: string)
    requires ParseLine(line).Some?
    ensures var r := ParseLine(line).value;
      StripNewlines(line) == r.username + Delimiter + r.birthday &&
      !PyStr.Contains(r.username, Delimiter) && !PyStr.Contains(r.birthday, Delimiter)
  {
    var s := StripNewlines(line);
    var fields := PyStr.Split(s, Delimiter);
    PyStr.JoinSplit(s, Delimiter);
    PyStr.SplitFieldsFree(s, Delimiter);
    assert fields[1..] == [fields[1]];
    assert PyStr.Join(fields, Delimiter) == fields[0] + Delimiter + fields[1];
  }

  /** A line in which `||` does not occur yields no record. */
  lemma LineWithoutDelimiterDropped(line: string)
    requires !PyStr.Contains(line, Delimiter)
    ensures ParseLine(line) == None
  {
    var l := PyStr.StripLeft(line, IsNewline);
    var s := StripNewlines(line);
    assert l == line[|line| - |l|..|line|];
    PyStr.ContainsInfix(line, Delimiter, |line| - |l|, |line|);
    assert l[0..|s|] == s;
    PyStr.ContainsInfix(l, Delimiter, 0, |s|);
    PyStr.SplitNoSeparator(s, Delimiter);
  }

  /**
   * A line with two delimiters whose first two fields hold no `|` splits into
   * three or more fields, so it yields no record, with or without the
   * trailing newlines `readlines` leaves on it.
   */
  lemma MoreFieldsDropped(x: string, y: string, z: string, eol: string)
    requires forall k :: 0 <= k < |x| ==> x[k] != '|'
    requires x == [] || x[0] != '\n'
    requires forall k :: 0 <= k < |y| ==> y[k] != '|'
    requires z == [] || z[|z| - 1] != '\n'
    requires forall k :: 0 <= k < |eol| ==> eol[k] == '\n'
    ensures ParseLine(x + Delimiter + y + Delimiter + z + eol) == None
  {
    var core := x + Delimiter + y + Delimiter + z;
    JoinedEnds(x, y + Delimiter + z);
    assert x + Delimiter + (y + Delimiter + z) == core;
    StripTrailingNewlines(core, eol);
    SplitThree(x, y, z);
    ParseLineNotTwo(core + eol);
  }

  /** Two delimiters after `|`-free fields give at least three fields. */
  lemma SplitThree(x: string, y: string, z: string)
    requires forall k :: 0 <= k < |x| ==> x[k] != '|'
    requires forall k :: 0 <= k < |y| ==> y[k] != '|'
    ensures |PyStr.Split(x + Delimiter + y + Delimiter + z, Delimiter)| >= 3
  {
    var rest := y + Delimiter + z;
    PyStr.NoStartNoOccurrence(x, Delimiter + rest, Delimiter);
    assert x + (Delimiter + rest) == x + Delimiter + rest;
    assert x + Delimiter + rest == x + Delimiter + y + Delimiter + z;
    PyStr.SplitCons(x, rest, Delimiter);
    PyStr.NoStartNoOccurrence(y, Delimiter + z, Delimiter);
    assert y + (Delimiter + z) == rest;
    PyStr.SplitCons(y, z, Delimiter);
  }

  /** A line whose stripped form does not split into exactly two fields yields no record. */
  lemma ParseLineNotTwo(line: string)
    requires |PyStr.Split(StripNewlines(line), Delimiter)| != 2
    ensures ParseLine(line) == None
  {
  }

  /** `a||b||c` and `a||||b` both give three fields and are dropped. */
  lemma ExtraFieldsDropped()
    ensures ParseLine("a||b||c") == None
    ensures ParseLine("a||||b") == None
  {
    ThreeFieldsDropped();
    EmptyMiddleDropped();
  }

  lemma ThreeFieldsDropped()
    ensures ParseLine("a||b||c") == None
  {
    MoreFieldsDropped("a", "b", "c", "");
    ThreeFieldLine();
  }

  /** The line of `ThreeFieldsDropped`, as `MoreFieldsDropped` builds it. */
  lemma ThreeFieldLine()
    ensures "a" + Delimiter + "b" + Delimiter + "c" + "" == "a||b||c"
  {
  }

  lemma EmptyMiddleDropped()
    ensures ParseLine("a||||b") == None
  {
    MoreFieldsDropped("a", "", "b", "");
    EmptyMiddleLine();
  }

  /** The line of `EmptyMiddleDropped`, as `MoreFieldsDropped` builds it. */
  lemma EmptyMiddleLine()
    ensures "a" + Delimiter + "" + Delimiter + "b" + "" == "a||||b"
  {
  }

  /** A field without `|` holds no delimiter. */
  lemma BarFreeField(f: string)
    requires forall k :: 0 <= k < |f| ==> f[k] != '|'
    ensures !PyStr.Contains(f, Delimiter)
  {
    assert forall k :: 0 <= k < |f| ==> f[k] != Delimiter[0];
    PyStr.NoStartNoOccurrence(f, "", Delimiter);
  }

  /** Only newlines are stripped: a carriage return before the final newline stays at the end of the birthday. */
  lemma CarriageReturnKept(u: string, b: string)
    requires forall k :: 0 <= k < |u| ==> u[k] != '|'
    requires u == [] || u[0] != '\n'
    requires forall k :: 0 <= k < |b| ==> b[k] != '|'
    ensures ParseLine(u + Delimiter + b + "\r\n") == Some(InputRecord(u, b + "\r"))
  {
    var withCr := b + "\r";
    assert forall k :: 0 <= k < |withCr| ==> withCr[k] != '|';
    BarFreeField(withCr);
    ParseLineRoundTrip(u, withCr, "\n");
    CarriageReturnLine(u, b);
  }

  /** The line of `CarriageReturnKept`, regrouped as the round trip states it. */
  lemma CarriageReturnLine(u: string, b: string)
    ensures u + Delimiter + (b + "\r") + "\n" == u + Delimiter + b + "\r\n"
  {
  }

  /** Only newlines are stripped: a leading space stays at the front of the username. */
  lemma LeadingSpaceKept(u: string, b: string)
    requires forall k :: 0 <= k < |u| ==> u[k] != '|'
    requires forall k :: 0 <= k < |b| ==> b[k] != '|'
    requires b == [] || b[|b| - 1] != '\n'
    ensures ParseLine(" " + u + Delimiter + b + "\n\n") == Some(InputRecord(" " + u, b))
  {
    var spaced := " " + u;
    assert forall k :: 0 <= k < |spaced| ==> spaced[k] != '|';
    BarFreeField(b);
    ParseLineRoundTrip(spaced, b, "\n\n");
  }

  // ---------------------------------------------------------------- properties of the loop

  /** The records of two runs of lines are the records of the first run followed by those of the second: the parse keeps line order. */
  lemma ParsedLinesAppend(a: seq<string>, b: seq<string>)
    ensures ParsedLines(a + b) == ParsedLines(a) + ParsedLines(b)
  {
    EachAppend(ParseLine, a, b);
    PresentAppend(ParseEach(a), ParseEach(b));
  }

  /** Every record comes from some line that parses to it. */
  lemma ParsedLinesFromLines(lines: seq<string>)
    ensures forall r :: r in ParsedLines(lines) ==> exists k :: 0 <= k < |lines| && ParseLine(lines[k]) == Some(r)
  {
    PresentFrom(ParseEach(lines));
  }

  /** Three lines of which the middle one does not parse yield the records of the other two, in order. */
  lemma MiddleLineDropped(first: string, bad: string, third: string)
    requires ParseLine(first).Some? && ParseLine(bad) == None && ParseLine(third).Some?
    ensures ParsedLines([first, bad, third]) == [ParseLine(first).value, ParseLine(third).value]
  {
    assert ParseEach([first, bad, third]) == [ParseLine(first), ParseLine(bad), ParseLine(third)];
    PresentSkipsMiddle(ParseLine(first), ParseLine(bad), ParseLine(third));
  }

  lemma PresentSkipsMiddle<T>(x: Option<T>, y: Option<T>, z: Option<T>)
    requires x.Some? && y == None && z.Some?
    ensures Present([x, y, z]) == [x.value, z.value]
  {
    assert [x][..0] == [];
    assert Present([x]) == [x.value];
    assert [x, y][..1] == [x];
    assert Present([x, y]) == [x.value];
    assert [x, y, z][..2] == [x, y];
  }

  lemma GoodLineA()
    ensures ParseLine("a||b\n") == Some(InputRecord("a", "b"))
  {
    var b := "b";
    assert forall k :: 0 <= k < |b| ==> b[k] != Delimiter[0];
    PyStr.NoStartNoOccurrence(b, "", Delimiter);
    ParseLineRoundTrip("a", b, "\n");
    assert "a" + Delimiter + b + "\n" == "a||b\n";
  }

  lemma GoodLineC()
    ensures ParseLine("c||d") == Some(InputRecord("c", "d"))
  {
    var d := "d";
    assert forall k :: 0 <= k < |d| ==> d[k] != Delimiter[0];
    PyStr.NoStartNoOccurrence(d, "", Delimiter);
    ParseLineRoundTrip("c", d, "");
    assert "c" + Delimiter + d + "" == "c||d";
  }

  lemma BadLine()
    ensures ParseLine("malformed-line\n") == None
  {
    var bad := "malformed-line\n";
    assert forall j :: 0 <= j < |bad| ==> bad[j] != Delimiter[0];
    PyStr.NoStartNoOccurrence(bad, "", Delimiter);
    LineWithoutDelimiterDropped(bad);
  }

  /** The file `a||b`, `malformed-line`, `c||d` yields exactly the records (a, b) and (c, d). */
  lemma MalformedLineSkipped()
    ensures ParsedLines(["a||b\n", "malformed-line\n", "c||d"]) == [InputRecord("a", "b"), InputRecord("c", "d")]
  {
    GoodLineA();
    GoodLineC();
    BadLine();
    MiddleLineDropped("a||b\n", "malformed-line\n", "c||d");
  }
}
