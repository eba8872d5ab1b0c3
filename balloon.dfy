/** The text rules of weather_balloon in misc.py: where the header block of
    a radiosonde flight file ends, how each header line becomes a metadata
    entry, and how the timestamps of the data rows are carried across
    midnight by a running count of day changes. Timestamps are whole
    seconds. */
module Balloon {
  import opened Wrappers
  import opened PyText
  import opened Dicts

  // ---------------------------------------------------------------------
  // Lines of the file

  /** readlines() when only '\n' ends a line and line endings are kept as
      they are (a file opened with newline='\n'). */
  function RawLines(text: string): (lines: seq<string>)
    decreases |text|
  {
    if text == [] then []
    else if LineLength(text) < |text| then
      [text[..LineLength(text) + 1]] + RawLines(text[LineLength(text) + 1..])
    else [text]
  }

  /** The universal-newline translation of a file opened in text mode with
      the default newline=None: "\r\n" and a lone '\r' both become '\n'. */
  function Universal(text: string): (r: string)
    ensures forall i :: 0 <= i < |r| ==> r[i] != '\r'
    decreases |text|
  {
    if text == [] then []
    else if text[0] == '\r' then
      if |text| > 1 && text[1] == '\n' then ['\n'] + Universal(text[2..])
      else ['\n'] + Universal(text[1..])
    else [text[0]] + Universal(text[1..])
  }

  /** readlines() on a file opened as on line 292: open(fname, 'r'). */
  function TextModeLines(text: string): seq<string> {
    RawLines(Universal(text))
  }

  /** A character the text lacks is in none of its lines. */
  lemma {:induction false} RawLinesAvoid(text: string, c: char)
    requires forall i :: 0 <= i < |text| ==> text[i] != c
    ensures forall k :: 0 <= k < |RawLines(text)| ==> c !in RawLines(text)[k]
    decreases |text|
  {
    if text != [] && LineLength(text) < |text| {
      var n := LineLength(text);
      RawLinesAvoid(text[n + 1..], c);
      assert RawLines(text) == [text[..n + 1]] + RawLines(text[n + 1..]);
    }
  }

  // ---------------------------------------------------------------------
  // End of the header block

  /** np.where([line == '\r\n' ...])[0][0] (line 296): the index of the
      first line that is exactly "\r\n"; None where the indexing raises. */
  function HeaderEnd(lines: seq<string>): (r: Option<nat>)
    ensures r.Some? ==> r.value < |lines| && lines[r.value] == "\r\n"
    ensures forall i :: 0 <= i < |lines| && (r.None? || i < r.value) ==> lines[i] != "\r\n"
  {
    if lines == [] then None
    else if lines[0] == "\r\n" then Some(0)
    else match HeaderEnd(lines[1..])
      case None => None
      case Some(k) => Some(k + 1)
  }

  /** Read as on line 292, no line of any file is "\r\n": the header end is
      never found and the [0][0] of line 296 always raises. */
  lemma {:induction false} TextModeHeaderNeverEnds(text: string)
    ensures HeaderEnd(TextModeLines(text)).None?
  {
    var u := Universal(text);
    RawLinesAvoid(u, '\r');
    var lines := RawLines(u);
    forall k | 0 <= k < |lines|
      ensures lines[k] != "\r\n"
    {
      assert '\r' in "\r\n";
    }
  }

  /** The text of header lines each ended by "\r\n". */
  function CrlfText(header: seq<string>): string {
    if header == [] then [] else header[0] + "\r\n" + CrlfText(header[1..])
  }

  /** A first line without a newline ends at the newline after it. */
  lemma {:induction false} FirstLine(pre: string, post: string)
    requires forall i :: 0 <= i < |pre| ==> pre[i] != '\n'
    ensures LineLength(pre + "\n" + post) == |pre|
  {
    var s := pre + "\n" + post;
    LineLengthStops(s);
    assert s[|pre|] == '\n';
    assert forall i :: 0 <= i < |pre| ==> s[i] == pre[i];
  }

  /** Read with line endings kept, a line without a newline followed by
      one comes first, the rest of the text after it. */
  lemma {:induction false} RawLinesCons(line: string, rest: string)
    requires forall i :: 0 <= i < |line| ==> line[i] != '\n'
    ensures RawLines(line + "\n" + rest) == [line + "\n"] + RawLines(rest)
  {
    var text := line + "\n" + rest;
    FirstLine(line, rest);
    assert text[..|line| + 1] == line + "\n";
    assert text[|line| + 1..] == rest;
  }

  /** Read with line endings kept, a file of header lines, a blank "\r\n"
      line and a body yields each header line with its "\r\n", then the
      blank line. */
  lemma {:induction false} RawLinesOfCrlf(header: seq<string>, body: string)
    requires forall k, i :: 0 <= k < |header| && 0 <= i < |header[k]| ==> header[k][i] != '\n'
    ensures |RawLines(CrlfText(header) + "\r\n" + body)| > |header|
    ensures forall k :: 0 <= k < |header| ==> RawLines(CrlfText(header) + "\r\n" + body)[k] == header[k] + "\r\n"
    ensures RawLines(CrlfText(header) + "\r\n" + body)[|header|] == "\r\n"
  {
    if header == [] {
      assert CrlfText(header) + "\r\n" + body == "\r" + "\n" + body;
      RawLinesCons("\r", body);
    } else {
      var h := header[0];
      var tail := CrlfText(header[1..]) + "\r\n" + body;
      assert CrlfText(header) + "\r\n" + body == (h + "\r") + "\n" + tail;
      assert forall i :: 0 <= i < |h + "\r"| ==> (h + "\r")[i] != '\n';
      RawLinesCons(h + "\r", tail);
      assert h + "\r" + "\n" == h + "\r\n";
      RawLinesOfCrlf(header[1..], body);
    }
  }

  /** The header ends at the first "\r\n" line. */
  lemma {:induction false} HeaderEndAt(lines: seq<string>, e: nat)
    requires e < |lines| && lines[e] == "\r\n"
    requires forall k :: 0 <= k < e ==> lines[k] != "\r\n"
    ensures HeaderEnd(lines) == Some(e)
  {
  }

  /** Read with line endings kept, the header of such a file ends at the
      blank "\r\n" line after its non-empty header lines. */
  lemma {:induction false} RawHeaderEnds(header: seq<string>, body: string)
    requires forall k :: 0 <= k < |header| ==> header[k] != []
    requires forall k, i :: 0 <= k < |header| && 0 <= i < |header[k]| ==> header[k][i] != '\n'
    ensures HeaderEnd(RawLines(CrlfText(header) + "\r\n" + body)) == Some(|header|)
  {
    var lines := RawLines(CrlfText(header) + "\r\n" + body);
    RawLinesOfCrlf(header, body);
    forall k | 0 <= k < |header|
      ensures lines[k] != "\r\n"
    {
      assert |lines[k]| == |header[k]| + 2;
    }
    HeaderEndAt(lines, |header|);
  }

  // ---------------------------------------------------------------------
  // Header entries

  datatype HeaderError =
    | NoHeaderEnd             // no line is "\r\n": the [0][0] indexing raises
    | NoSeparator(line: nat)  // parts[1] raises on this header line

  /** Lines 298-303 for one header line: the stripped line split at
      " : "; the key is the first part stripped, the value the second part
      as it is. None where there is no second part. */
  function Entry(line: string): Option<(string, string)> {
    var parts := Split(Strip(line), " : ");
    if |parts| < 2 then None else Some((Strip(parts[0]), parts[1]))
  }

  /** A line has an entry exactly when its stripped text holds " : ". */
  lemma {:induction false} EntryExists(line: string)
    ensures Entry(line).Some? <==> exists j: nat :: OccursAt(Strip(line), " : ", j)
  {
    var t := Strip(line);
    var parts := Split(t, " : ");
    assert Entry(line).Some? <==> |parts| >= 2;
    match Find(t, " : ")
    case None =>
      assert parts == [t];
      assert forall j: nat :: !OccursAt(t, " : ", j);
    case Some(k) =>
      assert OccursAt(t, " : ", k);
      assert parts == [t[..k]] + Split(t[k + 3..], " : ");
  }

  /** The first " : " of `s + rest` is where `rest` starts, when `s` holds
      none, overlapping ones included, and `rest` starts with one. */
  lemma {:induction false} FindSeparator(s: string, rest: string)
    requires forall j :: 0 <= j < |s| ==> !OccursAt(s + rest, " : ", j)
    requires OccursAt(rest, " : ", 0)
    ensures Find(s + rest, " : ") == Some(|s|)
  {
    var t := s + rest;
    assert t[|s|..|s| + 3] == rest[..3];
    assert OccursAt(t, " : ", |s|);
  }

  /** The first piece of `value + rest` split at " : " is `value`, when
      `value` holds no separator and `rest` is empty or starts with one. */
  lemma {:induction false} FirstPiece(value: string, rest: string)
    requires forall j :: 0 <= j < |value| ==> !OccursAt(value + rest, " : ", j)
    requires rest == [] || OccursAt(rest, " : ", 0)
    ensures Split(value + rest, " : ")[0] == value
  {
    if rest == [] {
      assert value + rest == value;
      assert Find(value, " : ").None?;
    } else {
      FindSeparator(value, rest);
      assert (value + rest)[..|value|] == value;
    }
  }

  /** The pieces of `s + " : " + more` split at " : " when `s` holds no
      separator: `s` itself, then the pieces of `more`. */
  lemma {:induction false} SplitAfterFirst(s: string, more: string)
    requires forall j :: 0 <= j < |s| ==> !OccursAt(s + (" : " + more), " : ", j)
    ensures Split(s + (" : " + more), " : ") == [s] + Split(more, " : ")
  {
    var t := s + (" : " + more);
    assert OccursAt(" : " + more, " : ", 0);
    FindSeparator(s, " : " + more);
    assert t[..|s|] == s;
    assert t[|s| + 3..] == more;
  }

  /** A stripped line "key : value" followed by nothing or by a further
      " : ..." gives the entry (strip(key), value). */
  lemma {:induction false} EntryOf(line: string, key: string, value: string, rest: string)
    requires Strip(line) == key + (" : " + (value + rest))
    requires forall j :: 0 <= j < |key| ==> !OccursAt(key + (" : " + (value + rest)), " : ", j)
    requires forall j :: 0 <= j < |value| ==> !OccursAt(value + rest, " : ", j)
    requires rest == [] || OccursAt(rest, " : ", 0)
    ensures Entry(line) == Some((Strip(key), value))
  {
    SplitAfterFirst(key, value + rest);
    FirstPiece(value, rest);
  }

  /** The entries of the header lines before `end`. */
  function HeaderEntries(lines: seq<string>, end: nat): seq<Option<(string, string)>>
    requires end <= |lines|
  {
    seq(end, j requires 0 <= j < end => Entry(lines[j]))
  }

  /** Every one of the first `bound` lines has an entry. */
  predicate AllEntries(entries: seq<Option<(string, string)>>, bound: nat)
    requires bound <= |entries|
  {
    forall j :: 0 <= j < bound ==> entries[j].Some?
  }

  /** The (key, value) pairs of the entries; an empty pair where there is none. */
  function EntryPairs(entries: seq<Option<(string, string)>>): seq<(string, string)> {
    seq(|entries|, j requires 0 <= j < |entries| => if entries[j].Some? then entries[j].value else ([], []))
  }

  /** Lines 300-304: the metadata of the header entries, in order; the
      first line without an entry makes the importer raise, and a later
      duplicate key overwrites an earlier one. */
  method CollectMetadata(entries: seq<Option<(string, string)>>) returns (r: Result<map<string, string>, HeaderError>)
    ensures r.Ok? <==> AllEntries(entries, |entries|)
    ensures r.Ok? ==> r.value == StoreAll(EntryPairs(entries), |entries|)
    ensures r.Err? ==> r.error.NoSeparator? && r.error.line < |entries|
                       && entries[r.error.line].None? && AllEntries(entries, r.error.line)
  {
    var pairs := EntryPairs(entries);
    var metadata := map[];
    var i := 0;
    while i < |entries|
      invariant 0 <= i <= |entries| && AllEntries(entries, i)
      invariant metadata == StoreAll(pairs, i)
    {
      if entries[i].None? {
        return Err(NoSeparator(i));
      }
      metadata := metadata[pairs[i].0 := pairs[i].1];
      i := i + 1;
    }

    return Ok(metadata);
  }

  /** Lines 296-304: the metadata of the header block, which ends at the
      first "\r\n" line. */
  method ParseHeader(lines: seq<string>) returns (r: Result<map<string, string>, HeaderError>)
    ensures HeaderEnd(lines).None? ==> r == Err(NoHeaderEnd)
    ensures HeaderEnd(lines).Some? ==>
              var entries := HeaderEntries(lines, HeaderEnd(lines).value);
              && (r.Ok? <==> AllEntries(entries, |entries|))
              && (r.Ok? ==> LastWins(EntryPairs(entries), |entries|, r.value))
              && (r.Err? ==> r.error.NoSeparator? && r.error.line < |entries|
                             && entries[r.error.line].None? && AllEntries(entries, r.error.line))
  {
    var end := HeaderEnd(lines);
    if end.None? {
      return Err(NoHeaderEnd);
    }
    var entries := HeaderEntries(lines, end.value);
    r := CollectMetadata(entries);
    if r.Ok? {
      StoreAllLastWins(EntryPairs(entries), |entries|, r.value);
    }
  }

  // ---------------------------------------------------------------------
  // Day rollover

  /** Lines 318-320: between rows i-1 and i the time of day went down while
      the elapsed time did not, so midnight was crossed. */
  predicate Crossing(ts: seq<int>, el: seq<int>, i: nat)
    requires 0 < i < |ts| && |el| == |ts|
  {
    ts[i] < ts[i - 1] && el[i] >= el[i - 1]
  }

  /** Lines 318-321: 0 followed by the running count of crossings; for an
      empty column the inserted 0 alone. */
  function DayOffsets(ts: seq<int>, el: seq<int>): (off: seq<int>)
    requires |ts| == |el|
    ensures |off| == if |ts| == 0 then 1 else |ts|
    ensures off[0] == 0
    ensures forall i :: 0 < i < |ts| ==> off[i] == off[i - 1] + (if Crossing(ts, el, i) then 1 else 0)
  {
    if |ts| <= 1 then [0]
    else
      var n := |ts| - 1;
      var prev := DayOffsets(ts[..n], el[..n]);
      assert forall i :: 0 < i < n ==> Crossing(ts[..n], el[..n], i) == Crossing(ts, el, i);
      prev + [prev[n - 1] + (if Crossing(ts, el, n) then 1 else 0)]
  }

  /** The crossings among the first i+1 rows. */
  function CrossingsUpTo(ts: seq<int>, el: seq<int>, i: nat): set<nat>
    requires i < |ts| && |el| == |ts|
  {
    set j: nat | 0 < j <= i && Crossing(ts, el, j)
  }

  /** The crossings up to row i are those up to row i-1, and row i if it
      is one. */
  lemma {:induction false} CrossingsStep(ts: seq<int>, el: seq<int>, i: nat)
    requires |ts| == |el| && 0 < i < |ts|
    ensures i !in CrossingsUpTo(ts, el, i - 1)
    ensures CrossingsUpTo(ts, el, i)
         == CrossingsUpTo(ts, el, i - 1) + (if Crossing(ts, el, i) then {i} else {})
  {
  }

  /** The offset of row i is the number of midnight crossings up to it. */
  lemma {:induction false} OffsetCountsCrossings(ts: seq<int>, el: seq<int>, i: nat)
    requires |ts| == |el| && i < |ts|
    ensures DayOffsets(ts, el)[i] == |CrossingsUpTo(ts, el, i)|
  {
    if i > 0 {
      OffsetCountsCrossings(ts, el, i - 1);
      CrossingsStep(ts, el, i);
    } else {
      assert CrossingsUpTo(ts, el, 0) == {};
    }
  }

  /** Offsets never decrease and grow by at most one per row. */
  lemma {:induction false} OffsetsMonotone(ts: seq<int>, el: seq<int>, i: nat, j: nat)
    requires |ts| == |el| && i <= j < |ts|
    ensures DayOffsets(ts, el)[i] <= DayOffsets(ts, el)[j] <= DayOffsets(ts, el)[i] + (j - i)
    decreases j - i
  {
    if i < j {
      OffsetsMonotone(ts, el, i, j - 1);
    }
  }

  datatype RolloverError = LengthMismatch  // adding one offset to a column without rows raises

  /** Lines 322-323: each timestamp moved on by its offset in whole days. */
  function CorrectTimes(ts: seq<int>, el: seq<int>): (r: Result<seq<int>, RolloverError>)
    requires |ts| == |el|
    ensures r.Err? <==> |ts| == 0
    ensures r.Ok? ==> |r.value| == |ts|
    ensures r.Ok? ==> forall i :: 0 <= i < |ts| ==> r.value[i] == ts[i] + 86400 * DayOffsets(ts, el)[i]
  {
    if |ts| == 0 then Err(LengthMismatch)
    else
      var off := DayOffsets(ts, el);
      Ok(seq(|ts|, i requires 0 <= i < |ts| => ts[i] + 86400 * off[i]))
  }

  /** Timestamps that never go down are left as they are. */
  lemma {:induction false} SortedTimesUnchanged(ts: seq<int>, el: seq<int>)
    requires |ts| == |el| && |ts| > 0
    requires forall i :: 0 < i < |ts| ==> ts[i - 1] <= ts[i]
    ensures CorrectTimes(ts, el) == Ok(ts)
  {
    var off := DayOffsets(ts, el);
    forall i | 0 <= i < |ts|
      ensures off[i] == 0
    {
      OffsetCountsCrossings(ts, el, i);
      assert CrossingsUpTo(ts, el, i) == {};
    }
    assert CorrectTimes(ts, el).value == ts;
  }

  /** Times of day of one date, with elapsed time never going down, come
      out in order once corrected. */
  lemma {:induction false} CorrectedTimesInOrder(ts: seq<int>, el: seq<int>, base: int)
    requires |ts| == |el| && |ts| > 0
    requires forall i :: 0 <= i < |ts| ==> base <= ts[i] < base + 86400
    requires forall i :: 0 < i < |ts| ==> el[i - 1] <= el[i]
    ensures forall i :: 0 < i < |ts| ==> CorrectTimes(ts, el).value[i - 1] <= CorrectTimes(ts, el).value[i]
  {
    var off := DayOffsets(ts, el);
    var c := CorrectTimes(ts, el).value;
    forall i | 0 < i < |ts|
      ensures c[i - 1] <= c[i]
    {
      assert c[i - 1] == ts[i - 1] + 86400 * off[i - 1];
      assert c[i] == ts[i] + 86400 * off[i];
    }
  }
}
