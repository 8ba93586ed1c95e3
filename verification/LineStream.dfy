/**
 Reading JSON lines in the timeline page (frontend/timeline.js): the whole text at once, and
 the same text arriving in chunks. `trim` and `parse` stand for the JavaScript built-ins; a
 value JavaScript counts as false is no record.
 */
module LineStream {

  import opened Wrappers

  datatype Reader<!R> = Reader(trim: string -> string, parse: string -> Result<Option<R>, string>)

  // ---------------------------------------------------------------- splitting at /\r?\n/

  /** The length of a match of \r?\n at position i, 0 for none. */
  function MatchAt(t: string, i: nat): (m: nat)
    requires i <= |t|
    ensures i + m <= |t|
  {
    if i < |t| && t[i] == '\n' then 1
    else if i + 1 < |t| && t[i] == '\r' && t[i + 1] == '\n' then 2
    else 0
  }

  /** `t.split(/\r?\n/)`, looking for the first match from position i on. */
  function SplitFrom(t: string, i: nat): (parts: seq<string>)
    requires i <= |t|
    ensures parts != []
    decreases |t|, |t| - i
  {
    if i == |t| then [t]
    else
      var m := MatchAt(t, i);
      if m > 0 then [t[..i]] + SplitFrom(t[i + m..], 0) else SplitFrom(t, i + 1)
  }

  function Split(t: string): (parts: seq<string>)
    ensures parts != []
  {
    SplitFrom(t, 0)
  }

  ghost predicate NoMatchBefore(t: string, i: nat)
    requires i <= |t|
  {
    forall j :: 0 <= j < i ==> MatchAt(t, j) == 0
  }

  lemma {:induction false} SplitSkips(t: string, i: nat)
    requires i <= |t| && NoMatchBefore(t, i)
    ensures Split(t) == SplitFrom(t, i)
  {
    if i > 0 {
      SplitSkips(t, i - 1);
      assert MatchAt(t, i - 1) == 0;
    }
  }

  /** All but the last part stand; the last one is open and goes on with the next text. */
  function Continued(parts: seq<string>, more: string): seq<string>
    requires parts != []
  {
    parts[..|parts| - 1] + Split(parts[|parts| - 1] + more)
  }

  lemma NoMatchInTail(t: string)
    requires NoMatchBefore(t, |t|)
    ensures Split(t) == [t]
  {
    SplitSkips(t, |t|);
  }

  lemma ContinuedCons(part: string, parts: seq<string>, more: string)
    requires parts != []
    ensures Continued([part] + parts, more) == [part] + Continued(parts, more)
  {
    assert ([part] + parts)[..|parts|] == [part] + parts[..|parts| - 1];
  }

  /** A match within the first text is a match of the two put together. */
  lemma SplitAtMatch(a: string, b: string, i: nat)
    requires i < |a| && MatchAt(a, i) > 0
    ensures var m := MatchAt(a, i);
            && SplitFrom(a, i) == [a[..i]] + Split(a[i + m..])
            && SplitFrom(a + b, i) == [a[..i]] + Split(a[i + m..] + b)
  {
    var m := MatchAt(a, i);
    assert (a + b)[..i] == a[..i] && (a + b)[i + m..] == a[i + m..] + b;
  }

  lemma {:induction false} SplitAppendFrom(a: string, b: string, i: nat)
    requires i <= |a| && NoMatchBefore(a, i) && NoMatchBefore(a + b, i)
    ensures SplitFrom(a + b, i) == Continued(SplitFrom(a, i), b)
    decreases |a|, |a| - i
  {
    if i == |a| {
      SplitSkips(a + b, i);
    } else if MatchAt(a, i) > 0 {
      var rest := a[i + MatchAt(a, i)..];
      SplitAtMatch(a, b, i);
      SplitAppendFrom(rest, b, 0);
      ContinuedCons(a[..i], Split(rest), b);
    } else if MatchAt(a + b, i) > 0 {
      assert i + 1 == |a|;
      SplitSkips(a + b, i);
    } else {
      SplitAppendFrom(a, b, i + 1);
    }
  }

  /** Splitting a text in two pieces, wherever the cut is, even between \r and \n. */
  lemma SplitAppend(a: string, b: string)
    ensures Split(a + b) == Continued(Split(a), b)
  {
    SplitAppendFrom(a, b, 0);
  }

  // ---------------------------------------------------------------- what splitting gives

  function Join(lines: seq<string>, end: string): string
    requires lines != []
  {
    if |lines| == 1 then lines[0] else lines[0] + end + Join(lines[1..], end)
  }

  predicate EndsWithReturn(line: string) {
    line != "" && line[|line| - 1] == '\r'
  }

  lemma PlainHasNoMatch(line: string, more: string)
    requires '\n' !in line && (!EndsWithReturn(line) || more == "" || more[0] != '\n')
    ensures NoMatchBefore(line + more, |line|)
  {
    var t := line + more;
    forall j | 0 <= j < |line| ensures MatchAt(t, j) == 0 {
      assert t[j] == line[j];
      assert line[j] in line;
      assert j + 1 < |line| ==> t[j + 1] == line[j + 1] && line[j + 1] in line;
    }
  }

  /** The text up to the first line end is the first part, with or without a return before the feed. */
  lemma FirstPart(line: string, end: string, rest: string)
    requires end in {"\n", "\r\n"} && '\n' !in line && (end == "\n" ==> !EndsWithReturn(line))
    ensures Split(line + end + rest) == [line] + Split(rest)
  {
    var t := line + end + rest;
    assert t == line + (end + rest);
    PlainHasNoMatch(line, end + rest);
    SplitSkips(t, |line|);
    assert t[|line|..] == end + rest;
    assert t[..|line|] == line && t[|line| + |end|..] == rest;
  }

  /** A return that ends a line is taken for part of the feed that follows it. */
  lemma ReturnIsEaten(line: string, rest: string)
    requires '\n' !in line && EndsWithReturn(line)
    ensures Split(line + "\n" + rest)[0] == line[..|line| - 1]
  {
    var init := line[..|line| - 1];
    assert line + "\n" + rest == init + "\r\n" + rest;
    assert forall k :: 0 <= k < |init| ==> init[k] == line[k];
    FirstPart(init, "\r\n", rest);
  }

  /**
   Lines written with \n in between come back unchanged exactly if they hold no \n and none but the last ends
   in \r.
   */
  lemma {:induction false} JoinSplit(lines: seq<string>)
    requires lines != []
    ensures Split(Join(lines, "\n")) == lines <==>
              && (forall k :: 0 <= k < |lines| ==> '\n' !in lines[k])
              && (forall k :: 0 <= k < |lines| - 1 ==> !EndsWithReturn(lines[k]))
  {
    var line, t := lines[0], Join(lines, "\n");
    PartsHoldNoNewline(t, 0);
    if '\n' in line {
      assert Split(t) == lines ==> line in Split(t);
    } else if |lines| == 1 {
      PlainHasNoMatch(line, "");
      assert line + "" == line;
      NoMatchInTail(line);
    } else if EndsWithReturn(line) {
      ReturnIsEaten(line, Join(lines[1..], "\n"));
    } else {
      FirstPart(line, "\n", Join(lines[1..], "\n"));
      JoinSplit(lines[1..]);
      assert lines == [line] + lines[1..];
      RestIsSame(line, Split(Join(lines[1..], "\n")), lines[1..]);
      assert forall k :: 1 <= k < |lines| ==> lines[k] == lines[1..][k - 1];
      assert forall k :: 0 <= k < |lines| - 1 ==> lines[1..][k] == lines[k + 1];
    }
  }

  lemma RestIsSame(line: string, a: seq<string>, b: seq<string>)
    ensures [line] + a == [line] + b <==> a == b
  {
    assert ([line] + a)[1..] == a && ([line] + b)[1..] == b;
  }

  /** Lines written with \r\n in between come back unchanged exactly if they hold no \n. */
  lemma {:induction false} JoinSplitReturns(lines: seq<string>)
    requires lines != []
    ensures Split(Join(lines, "\r\n")) == lines <==> forall k :: 0 <= k < |lines| ==> '\n' !in lines[k]
  {
    var line, t := lines[0], Join(lines, "\r\n");
    PartsHoldNoNewline(t, 0);
    if '\n' in line {
      assert Split(t) == lines ==> line in Split(t);
    } else if |lines| == 1 {
      PlainHasNoMatch(line, "");
      assert line + "" == line;
      NoMatchInTail(line);
    } else {
      FirstPart(line, "\r\n", Join(lines[1..], "\r\n"));
      JoinSplitReturns(lines[1..]);
      assert lines == [line] + lines[1..];
      RestIsSame(line, Split(Join(lines[1..], "\r\n")), lines[1..]);
      assert forall k :: 1 <= k < |lines| ==> lines[k] == lines[1..][k - 1];
      assert forall k :: 0 <= k < |lines| - 1 ==> lines[1..][k] == lines[k + 1];
    }
  }

  /** No part holds a line feed. */
  lemma {:induction false} PartsHoldNoNewline(t: string, i: nat)
    requires i <= |t| && NoMatchBefore(t, i)
    ensures forall p <- SplitFrom(t, i) :: '\n' !in p
    decreases |t|, |t| - i
  {
    if i == |t| || MatchAt(t, i) > 0 {
      forall k | 0 <= k < i ensures t[k] != '\n' { assert MatchAt(t, k) == 0; }
    }
    if i < |t| {
      var m := MatchAt(t, i);
      if m > 0 { PartsHoldNoNewline(t[i + m..], 0); } else { PartsHoldNoNewline(t, i + 1); }
    }
  }

  // ---------------------------------------------------------------- records

  datatype Parsed<R> = Nothing | Record(record: R) | Broken(message: string)

  function ParseLine<R>(reader: Reader<R>, line: string): Parsed<R> {
    var trimmed := reader.trim(line);
    if trimmed == "" then Nothing
    else
      match reader.parse(trimmed)
      case Err(message) => Broken(message)
      case Ok(None) => Nothing
      case Ok(Some(r)) => Record(r)
  }

  function Records<R>(reader: Reader<R>, lines: seq<string>): seq<R> {
    if lines == [] then []
    else
      Records(reader, lines[..|lines| - 1]) +
      match ParseLine(reader, lines[|lines| - 1]) case Record(r) => [r] case _ => []
  }

  /** The broken lines with their numbers, from 1. */
  function Errors<R>(reader: Reader<R>, lines: seq<string>): seq<(nat, string)> {
    if lines == [] then []
    else
      Errors(reader, lines[..|lines| - 1]) +
      match ParseLine(reader, lines[|lines| - 1]) case Broken(m) => [(|lines|, m)] case _ => []
  }

  /** The lines, by number from 0, whose trimmed text is not empty and parses to a record. */
  ghost function RecordLines<R>(reader: Reader<R>, lines: seq<string>): (at: seq<nat>)
    ensures forall k :: 0 <= k < |at| ==> at[k] < |lines| && HoldsRecord(reader, lines[at[k]])
    ensures forall i :: 0 <= i < |lines| && HoldsRecord(reader, lines[i]) ==> i in at
    ensures forall k, l :: 0 <= k < l < |at| ==> at[k] < at[l]
  {
    if lines == [] then [] else
      var n := |lines| - 1;
      RecordLines(reader, lines[..n]) + if HoldsRecord(reader, lines[n]) then [n] else []
  }

  predicate HoldsRecord<R>(reader: Reader<R>, line: string) {
    reader.trim(line) != "" && reader.parse(reader.trim(line)).Ok? && reader.parse(reader.trim(line)).value.Some?
  }

  /** The records are those of the lines that hold one, in order. */
  lemma {:induction false} RecordsExactly<R>(reader: Reader<R>, lines: seq<string>)
    ensures var at, records := RecordLines(reader, lines), Records(reader, lines);
            && |records| == |at|
            && forall k :: 0 <= k < |at| ==> reader.parse(reader.trim(lines[at[k]])) == Ok(Some(records[k]))
  {
    if lines != [] { RecordsExactly(reader, lines[..|lines| - 1]); }
  }

  /** The lines whose trimmed text is not empty and does not parse. */
  ghost function BrokenLines<R>(reader: Reader<R>, lines: seq<string>): (at: seq<nat>)
    ensures forall k :: 0 <= k < |at| ==> at[k] < |lines| && IsBroken(reader, lines[at[k]])
    ensures forall i :: 0 <= i < |lines| && IsBroken(reader, lines[i]) ==> i in at
    ensures forall k, l :: 0 <= k < l < |at| ==> at[k] < at[l]
  {
    if lines == [] then [] else
      var n := |lines| - 1;
      BrokenLines(reader, lines[..n]) + if IsBroken(reader, lines[n]) then [n] else []
  }

  predicate IsBroken<R>(reader: Reader<R>, line: string) {
    reader.trim(line) != "" && reader.parse(reader.trim(line)).Err?
  }

  /** The errors are those of the broken lines, in order, numbered from 1 through the whole text. */
  lemma {:induction false} ErrorsExactly<R>(reader: Reader<R>, lines: seq<string>)
    ensures var at, errors := BrokenLines(reader, lines), Errors(reader, lines);
            && |errors| == |at|
            && forall k :: 0 <= k < |at| ==>
                 && errors[k].0 == at[k] + 1
                 && reader.parse(reader.trim(lines[at[k]])) == Err(errors[k].1)
  {
    if lines != [] { ErrorsExactly(reader, lines[..|lines| - 1]); }
  }

  lemma {:induction false} RecordsAppend<R>(reader: Reader<R>, a: seq<string>, b: seq<string>)
    ensures Records(reader, a + b) == Records(reader, a) + Records(reader, b)
  {
    if b == [] {
      assert a + b == a;
    } else {
      assert (a + b)[..|a + b| - 1] == a + b[..|b| - 1];
      RecordsAppend(reader, a, b[..|b| - 1]);
    }
  }

  /** The whole text at once. */
  method ParseJSONL<R>(reader: Reader<R>, text: string) returns (records: seq<R>, errors: seq<(nat, string)>)
    ensures records == Records(reader, Split(text))
    ensures errors == Errors(reader, Split(text))
  {
    var lines := Split(text);
    records, errors := [], [];
    for i := 0 to |lines|
      invariant records == Records(reader, lines[..i])
      invariant errors == Errors(reader, lines[..i])
    {
      assert lines[..i + 1][..i] == lines[..i];
      match ParseLine(reader, lines[i])
      case Nothing => {}
      case Record(r) => records := records + [r];
      case Broken(m) => errors := errors + [(i + 1, m)];
    }
    assert lines[..|lines|] == lines;
  }

  function Concat(chunks: seq<string>): string {
    if chunks == [] then "" else Concat(chunks[..|chunks| - 1]) + chunks[|chunks| - 1]
  }

  /** Handing a line to the collector of records. */
  method OnLine<R>(reader: Reader<R>, records: seq<R>, line: string) returns (r: seq<R>)
    ensures r == records + Records(reader, [line])
  {
    r := match ParseLine(reader, line) case Record(rec) => records + [rec] case _ => records;
  }

  method OnLines<R>(reader: Reader<R>, records: seq<R>, lines: seq<string>) returns (r: seq<R>)
    ensures r == records + Records(reader, lines)
  {
    r := records;
    for k := 0 to |lines|
      invariant r == records + Records(reader, lines[..k])
    {
      r := OnLine(reader, r, lines[k]);
      RecordsAppend(reader, lines[..k], [lines[k]]);
      assert lines[..k + 1] == lines[..k] + [lines[k]];
    }
    assert lines[..|lines|] == lines;
  }

  lemma ContinueSplit(a: string, b: string, given: seq<string>, buf: string, parts: seq<string>)
    requires Split(a) == given + [buf] && parts == Split(buf + b)
    ensures Split(a + b) == (given + parts[..|parts| - 1]) + [parts[|parts| - 1]]
  {
    SplitAppend(a, b);
    assert (given + [buf])[..|given|] == given;
  }

  /** A line of blanks holds no record. */
  lemma BlankHasNone<R>(reader: Reader<R>, line: string)
    requires reader.trim(line) == ""
    ensures Records(reader, [line]) == []
  {
    assert [line][..0] == [];
  }

  /** One chunk: all lines it completes are handed on, the open one is kept. */
  method Feed<R>(reader: Reader<R>, records: seq<R>, buf: string, chunk: string, ghost seen: string,
                 ghost given: seq<string>)
    returns (records': seq<R>, buf': string, ghost given': seq<string>)
    requires Split(seen) == given + [buf] && records == Records(reader, given)
    ensures Split(seen + chunk) == given' + [buf'] && records' == Records(reader, given')
  {
    var parts := Split(buf + chunk);
    ContinueSplit(seen, chunk, given, buf, parts);
    buf' := parts[|parts| - 1];
    parts := parts[..|parts| - 1];
    records' := OnLines(reader, records, parts);
    RecordsAppend(reader, given, parts);
    given' := given + parts;
  }

  lemma ConcatStep(chunks: seq<string>, i: nat)
    requires i < |chunks|
    ensures Concat(chunks[..i + 1]) == Concat(chunks[..i]) + chunks[i]
  {
    assert chunks[..i + 1][..i] == chunks[..i];
  }

  /** The text in chunks: for every way of cutting it, the records are those of the whole text. */
  method FetchRecords<R>(reader: Reader<R>, chunks: seq<string>) returns (records: seq<R>)
    ensures records == Records(reader, Split(Concat(chunks)))
  {
    records := [];
    var buf := "";
    ghost var given: seq<string> := [];
    for i := 0 to |chunks|
      invariant Split(Concat(chunks[..i])) == given + [buf]
      invariant records == Records(reader, given)
    {
      ConcatStep(chunks, i);
      records, buf, given := Feed(reader, records, buf, chunks[i], Concat(chunks[..i]), given);
    }
    assert chunks[..|chunks|] == chunks;
    RecordsAppend(reader, given, [buf]);
    if reader.trim(buf) != "" {
      records := OnLine(reader, records, buf);
    } else {
      BlankHasNone(reader, buf);
    }
  }
}
