/** The record splitter of the microwave-radiometer importer (mwr_from_csv in
    misc.py): the record type of every line, the header lines, the per-type
    tables handed to the CSV reader, the name/unit split of record titles
    and the scan numbering of the measurement rows. */
module Radiometer {
  import opened Wrappers
  import opened PyText
  import opened Dicts

  // ---------------------------------------------------------------------
  // Record type of a line

  /** re.sub("^[^,]*,[^,]*,", "", line): the first two fields and their
      commas are dropped when the line has at least two commas. */
  function DropTwoFields(line: string): string {
    match Find(line, ",")
    case None => line
    case Some(i) =>
      match Find(line[i + 1..], ",")
      case None => line
      case Some(j) => line[i + 1..][j + 1..]
  }

  /** The rest of `s` from its first newline on; empty when it has none. */
  function FromNewline(s: string): (r: string)
    ensures |r| <= |s|
  {
    s[LineLength(s)..]
  }

  /** re.sub(",.*", "", s): each comma goes together with the rest of its
      line, since '.' does not match a newline. */
  function DropCommaTails(s: string): string
    decreases |s|
  {
    if s == [] then []
    else if s[0] == ',' then DropCommaTails(FromNewline(s[1..]))
    else [s[0]] + DropCommaTails(s[1..])
  }

  /** The record type of one line: int() of what the two substitutions leave. */
  function LineType(line: string): Option<int> {
    ParseInt(DropCommaTails(DropTwoFields(line)))
  }

  lemma {:induction false} DropCommaTailsPlain(f: string, t: string)
    requires forall i :: 0 <= i < |f| ==> f[i] != ','
    ensures DropCommaTails(f + t) == f + DropCommaTails(t)
  {
    if f != [] {
      assert (f + t)[0] == f[0];
      assert (f + t)[1..] == f[1..] + t;
      DropCommaTailsPlain(f[1..], t);
      assert [f[0]] + f[1..] == f;
    } else {
      assert f + t == t;
    }
  }

  lemma {:induction false} FirstComma(f: string, t: string)
    requires forall i :: 0 <= i < |f| ==> f[i] != ','
    ensures Find(f + "," + t, ",") == Some(|f|)
  {
    var s := f + "," + t;
    assert OccursAt(s, ",", |f|) by { assert s[|f|..|f| + 1] == [s[|f|]]; }
    forall k: nat | k < |f| ensures !OccursAt(s, ",", k) {
      assert s[k..k + 1] == [f[k]];
    }
  }

  /** The first substitution leaves the third field and what follows it. */
  lemma {:induction false} DropTwoFieldsOf(f1: string, f2: string, tail: string)
    requires forall i :: 0 <= i < |f1| ==> f1[i] != ','
    requires forall i :: 0 <= i < |f2| ==> f2[i] != ','
    ensures DropTwoFields(f1 + "," + f2 + "," + tail) == tail
  {
    var line := f1 + "," + f2 + "," + tail;
    var after1 := f2 + "," + tail;
    FirstComma(f1, after1);
    assert line == f1 + "," + after1;
    assert line[|f1| + 1..] == after1;
    FirstComma(f2, tail);
  }

  lemma {:induction false} FromNewlineOf(r: string, eol: string)
    requires forall i :: 0 <= i < |r| ==> r[i] != '\n'
    requires eol == [] || eol == "\n"
    ensures FromNewline(r + eol) == eol
  {
    var s := r + eol;
    assert forall i :: 0 <= i < |r| ==> s[i] == r[i];
    if eol != [] {
      assert s[|r|] == '\n';
    }
    LineLengthStops(s);
    assert LineLength(s) == |r|;
    assert s[|r|..] == eol;
  }

  /** The second substitution cuts the field at its comma and keeps the
      line ending. */
  lemma {:induction false} DropCommaTailsOf(f3: string, rest: string, eol: string)
    requires forall i :: 0 <= i < |f3| ==> f3[i] != ','
    requires rest == [] || (rest[0] == ',' && forall i :: 0 <= i < |rest| ==> rest[i] != '\n')
    requires eol == [] || eol == "\n"
    ensures DropCommaTails(f3 + rest + eol) == f3 + eol
  {
    assert f3 + rest + eol == f3 + (rest + eol);
    DropCommaTailsPlain(f3, rest + eol);
    DropCommaTailsPlain(eol, []);
    assert eol + [] == eol;
    if rest == [] {
      assert rest + eol == eol;
    } else {
      assert (rest + eol)[1..] == rest[1..] + eol;
      FromNewlineOf(rest[1..], eol);
    }
  }

  /** The type of a line is the integer in its third comma-separated field:
      `f1,f2,f3` optionally followed by `,rest` and by a newline. */
  lemma {:induction false} LineTypeOfThirdField(f1: string, f2: string, f3: string, rest: string, eol: string)
    requires forall i :: 0 <= i < |f1| ==> f1[i] != ','
    requires forall i :: 0 <= i < |f2| ==> f2[i] != ','
    requires forall i :: 0 <= i < |f3| ==> f3[i] != ','
    requires rest == [] || (rest[0] == ',' && forall i :: 0 <= i < |rest| ==> rest[i] != '\n')
    requires eol == [] || eol == "\n"
    ensures LineType(f1 + "," + f2 + "," + f3 + rest + eol) == ParseInt(f3)
  {
    var line := f1 + "," + f2 + "," + f3 + rest + eol;
    assert line == f1 + "," + f2 + "," + (f3 + rest + eol);
    DropTwoFieldsOf(f1, f2, f3 + rest + eol);
    DropCommaTailsOf(f3, rest, eol);
    if eol == "\n" {
      ParseIntAppendSpace(f3, '\n');
      assert f3 + eol == f3 + ['\n'];
    } else {
      assert f3 + eol == f3;
    }
  }

  datatype SplitError =
    | BadTypeField(line: nat)   // int() raised on the third field of this line
    | NoHeaderLine              // np.nditer over an empty header index array raises

  /** A list comprehension that raises at the first element `classify`
      rejects: the index of that element, or every value in order. */
  function ClassifyAll(lines: seq<string>, classify: string -> Option<int>): (r: Result<seq<int>, SplitError>)
    ensures r.Ok? ==> |r.value| == |lines| && forall i :: 0 <= i < |lines| ==> classify(lines[i]) == Some(r.value[i])
    ensures r.Err? ==> r.error.BadTypeField? && r.error.line < |lines| && classify(lines[r.error.line]).None?
                       && forall i :: 0 <= i < r.error.line ==> classify(lines[i]).Some?
  {
    if lines == [] then Ok([])
    else match classify(lines[0])
      case None => Err(BadTypeField(0))
      case Some(t) =>
        match ClassifyAll(lines[1..], classify)
        case Ok(ts) => Ok([t] + ts)
        case Err(e) => Err(BadTypeField(e.line + 1))
  }

  /** The types of all lines (line 127); int() raising on any line makes
      the importer raise, at the first such line. */
  function LineTypes(lines: seq<string>): (r: Result<seq<int>, SplitError>)
    ensures r.Ok? ==> |r.value| == |lines| && forall i :: 0 <= i < |lines| ==> LineType(lines[i]) == Some(r.value[i])
    ensures r.Err? ==> r.error.BadTypeField? && r.error.line < |lines| && LineType(lines[r.error.line]).None?
                       && forall i :: 0 <= i < r.error.line ==> LineType(lines[i]).Some?
  {
    ClassifyAll(lines, LineType)
  }

  // ---------------------------------------------------------------------
  // Header lines and the per-type tables

  /** re.search("^Record", line): the line starts with "Record". */
  predicate IsHeader(line: string) {
    |line| >= 6 && line[..6] == "Record"
  }

  predicate HasHeader(lines: seq<string>) {
    exists n :: 0 <= n < |lines| && IsHeader(lines[n])
  }

  /** A line of type `u` belongs to the table of a header of type `t`
      exactly when u is one of t+1, t+2, t+3, t+4. */
  predicate BelongsTo(u: int, t: int) {
    t + 1 <= u <= t + 4
  }

  /** The lines whose type belongs to `t`, in file order. */
  function Owned(lines: seq<string>, types: seq<int>, t: int): seq<string>
    requires |types| == |lines|
  {
    if lines == [] then []
    else (if BelongsTo(types[0], t) then [lines[0]] else []) + Owned(lines[1..], types[1..], t)
  }

  /** A line is in the table of type `t` exactly when some line with that
      text has a type belonging to `t`. */
  lemma {:induction false} OwnedMembers(lines: seq<string>, types: seq<int>, t: int)
    requires |types| == |lines|
    ensures forall x :: x in Owned(lines, types, t) <==>
      exists m :: 0 <= m < |lines| && BelongsTo(types[m], t) && lines[m] == x
  {
    if lines != [] {
      OwnedMembers(lines[1..], types[1..], t);
      forall x
        ensures x in Owned(lines, types, t) <==>
          exists m :: 0 <= m < |lines| && BelongsTo(types[m], t) && lines[m] == x
      {
        if x in Owned(lines, types, t) {
          if !(BelongsTo(types[0], t) && x == lines[0]) {
            assert x in Owned(lines[1..], types[1..], t);
            var m :| 0 <= m < |lines| - 1 && BelongsTo(types[1..][m], t) && lines[1..][m] == x;
            assert BelongsTo(types[m + 1], t) && lines[m + 1] == x;
          }
        }
        if exists m :: 0 <= m < |lines| && BelongsTo(types[m], t) && lines[m] == x {
          var m :| 0 <= m < |lines| && BelongsTo(types[m], t) && lines[m] == x;
          if m > 0 {
            assert BelongsTo(types[1..][m - 1], t) && lines[1..][m - 1] == x;
          }
        }
      }
    }
  }

  /** Appending a line to the file appends it, when it belongs, at the end
      of the table: tables keep file order. */
  lemma {:induction false} OwnedAppend(lines: seq<string>, types: seq<int>, t: int, line: string, u: int)
    requires |types| == |lines|
    ensures Owned(lines + [line], types + [u], t)
         == Owned(lines, types, t) + (if BelongsTo(u, t) then [line] else [])
  {
    if lines == [] {
      assert lines + [line] == [line];
      assert types + [u] == [u];
    } else {
      assert (lines + [line])[1..] == lines[1..] + [line];
      assert (types + [u])[1..] == types[1..] + [u];
      OwnedAppend(lines[1..], types[1..], t, line, u);
    }
  }

  /** The table built for the header at `n`: the header line, then its lines. */
  function Table(lines: seq<string>, types: seq<int>, n: nat): seq<string>
    requires |types| == |lines| && n < |lines|
  {
    [lines[n]] + Owned(lines, types, types[n])
  }

  /** The header at `n` produces a table (it has at least one line). */
  predicate Owns(lines: seq<string>, types: seq<int>, n: nat)
    requires |types| == |lines| && n < |lines|
  {
    IsHeader(lines[n]) && Owned(lines, types, types[n]) != []
  }

  /** No header of the same type follows `n` before `bound`. */
  ghost predicate LatestOfType(lines: seq<string>, types: seq<int>, n: nat, bound: nat)
    requires |types| == |lines| && n < bound <= |lines|
  {
    forall m :: n < m < bound && IsHeader(lines[m]) ==> types[m] != types[n]
  }

  /** The keys of `csvs` are str(t) for exactly the types t of the headers
      before `bound` that have lines. */
  ghost predicate KeysOf(lines: seq<string>, types: seq<int>, bound: nat, csvs: map<string, seq<string>>)
    requires |types| == |lines| && bound <= |lines|
  {
    forall k :: k in csvs <==> HasKey(lines, types, bound, k)
  }

  /** Some header before `bound` that has lines is of the type spelled `k`. */
  ghost predicate HasKey(lines: seq<string>, types: seq<int>, bound: nat, k: string)
    requires |types| == |lines| && bound <= |lines|
  {
    exists n: nat :: n < bound && Owns(lines, types, n) && DecimalString(types[n]) == k
  }

  lemma {:induction false} HasKeyStep(lines: seq<string>, types: seq<int>, i: nat, k: string)
    requires |types| == |lines| && i < |lines|
    ensures HasKey(lines, types, i + 1, k)
        <==> HasKey(lines, types, i, k) || (Owns(lines, types, i) && DecimalString(types[i]) == k)
  {
    if HasKey(lines, types, i + 1, k) {
      var n: nat :| n < i + 1 && Owns(lines, types, n) && DecimalString(types[n]) == k;
      if n < i {
        assert HasKey(lines, types, i, k);
      }
    }
    if HasKey(lines, types, i, k) {
      var n: nat :| n < i && Owns(lines, types, n) && DecimalString(types[n]) == k;
      assert n < i + 1;
    }
  }

  /** Under str(t), `csvs` holds the table of the latest header of type t
      before `bound` that has lines. */
  ghost predicate LatestTables(lines: seq<string>, types: seq<int>, bound: nat, csvs: map<string, seq<string>>)
    requires |types| == |lines| && bound <= |lines|
  {
    forall n: nat :: n < bound && Owns(lines, types, n) && LatestOfType(lines, types, n, bound) ==>
      DecimalString(types[n]) in csvs && csvs[DecimalString(types[n])] == Table(lines, types, n)
  }

  /** `csvs` holds the tables of the headers before `bound`: one key str(t)
      per type t of a header with lines, holding the table of the latest
      such header. */
  ghost predicate TablesOf(lines: seq<string>, types: seq<int>, bound: nat, csvs: map<string, seq<string>>)
    requires |types| == |lines| && bound <= |lines|
  {
    KeysOf(lines, types, bound, csvs) && LatestTables(lines, types, bound, csvs)
  }

  /** The dictionary after visiting header `n`: its table is stored under
      str(t) when it has lines. */
  function Visit(lines: seq<string>, types: seq<int>, n: nat, csvs: map<string, seq<string>>): map<string, seq<string>>
    requires |types| == |lines| && n < |lines|
  {
    if Owns(lines, types, n) then csvs[DecimalString(types[n]) := Table(lines, types, n)] else csvs
  }

  /** The dictionary after the headers before `bound` have been visited. */
  function TablesBefore(lines: seq<string>, types: seq<int>, bound: nat): map<string, seq<string>>
    requires |types| == |lines| && bound <= |lines|
  {
    if bound == 0 then map[]
    else Visit(lines, types, bound - 1, TablesBefore(lines, types, bound - 1))
  }

  /** Visiting one more header keeps the keys equal to the types that have
      a table. */
  lemma {:induction false} TablesStepKeys(lines: seq<string>, types: seq<int>, i: nat, csvs: map<string, seq<string>>)
    requires |types| == |lines| && i < |lines| && KeysOf(lines, types, i, csvs)
    ensures KeysOf(lines, types, i + 1, Visit(lines, types, i, csvs))
  {
    var next := Visit(lines, types, i, csvs);
    forall k
      ensures k in next <==> HasKey(lines, types, i + 1, k)
    {
      HasKeyStep(lines, types, i, k);
    }
  }

  /** Visiting one more header keeps every type's latest table in place. */
  lemma {:induction false} TablesStepValues(lines: seq<string>, types: seq<int>, i: nat, csvs: map<string, seq<string>>)
    requires |types| == |lines| && i < |lines| && LatestTables(lines, types, i, csvs)
    ensures LatestTables(lines, types, i + 1, Visit(lines, types, i, csvs))
  {
    var next := Visit(lines, types, i, csvs);
    forall n: nat | n < i + 1 && Owns(lines, types, n) && LatestOfType(lines, types, n, i + 1)
      ensures DecimalString(types[n]) in next && next[DecimalString(types[n])] == Table(lines, types, n)
    {
      if n < i {
        assert LatestOfType(lines, types, n, i);
        if Owns(lines, types, i) {
          assert types[i] != types[n];
          if DecimalString(types[n]) == DecimalString(types[i]) {
            DecimalStringInjective(types[n], types[i]);
          }
        }
      }
    }
  }

  lemma {:induction false} KeysBefore(lines: seq<string>, types: seq<int>, bound: nat)
    requires |types| == |lines| && bound <= |lines|
    ensures KeysOf(lines, types, bound, TablesBefore(lines, types, bound))
  {
    if bound > 0 {
      var csvs := TablesBefore(lines, types, bound - 1);
      KeysBefore(lines, types, bound - 1);
      TablesStepKeys(lines, types, bound - 1, csvs);
      assert TablesBefore(lines, types, bound) == Visit(lines, types, bound - 1, csvs);
    }
  }

  lemma {:induction false} LatestBefore(lines: seq<string>, types: seq<int>, bound: nat)
    requires |types| == |lines| && bound <= |lines|
    ensures LatestTables(lines, types, bound, TablesBefore(lines, types, bound))
  {
    if bound > 0 {
      var csvs := TablesBefore(lines, types, bound - 1);
      LatestBefore(lines, types, bound - 1);
      TablesStepValues(lines, types, bound - 1, csvs);
      assert TablesBefore(lines, types, bound) == Visit(lines, types, bound - 1, csvs);
    }
  }

  /** After visiting the headers before `bound`, the dictionary maps str(t)
      to the table of the latest header of type t that has lines, and holds
      no other key. */
  lemma {:induction false} TablesBeforeSpec(lines: seq<string>, types: seq<int>, bound: nat)
    requires |types| == |lines| && bound <= |lines|
    ensures TablesOf(lines, types, bound, TablesBefore(lines, types, bound))
  {
    KeysBefore(lines, types, bound);
    LatestBefore(lines, types, bound);
  }


  /** Lines 131-145: for each header line, in file order, the table of
      its type is built and stored under str(type), replacing an earlier
      table of the same type; a header without lines stores nothing. */
  method GroupTables(lines: seq<string>, types: seq<int>) returns (csvs: map<string, seq<string>>)
    requires |types| == |lines|
    ensures TablesOf(lines, types, |lines|, csvs)
  {
    csvs := map[];
    var i := 0;
    while i < |lines|
      invariant 0 <= i <= |lines|
      invariant csvs == TablesBefore(lines, types, i)
    {
      if IsHeader(lines[i]) {
        var owned := Owned(lines, types, types[i]);
        if owned != [] {
          csvs := csvs[DecimalString(types[i]) := [lines[i]] + owned];
        }
      }
      i := i + 1;
    }
    TablesBeforeSpec(lines, types, |lines|);
  }

  /** Lines 127-145: classify every line, find the header lines, group.
      A type field int() rejects, or a file without any header line, makes
      the importer raise. */
  method SplitRecords(lines: seq<string>) returns (r: Result<map<string, seq<string>>, SplitError>)
    ensures LineTypes(lines).Err? ==> r == Err(LineTypes(lines).error)
    ensures LineTypes(lines).Ok? && !HasHeader(lines) ==> r == Err(NoHeaderLine)
    ensures LineTypes(lines).Ok? && HasHeader(lines) ==>
              r.Ok? && TablesOf(lines, LineTypes(lines).value, |lines|, r.value)
  {
    var parsed := LineTypes(lines);
    if parsed.Err? {
      return Err(parsed.error);
    }
    if !HasHeader(lines) {
      return Err(NoHeaderLine);
    }
    var csvs := GroupTables(lines, parsed.value);
    return Ok(csvs);
  }

  // ---------------------------------------------------------------------
  // Record titles

  /** re.split(' \(', title)[0]: the text before the first " (". */
  function NameOf(title: string): string {
    Split(title, " (")[0]
  }

  /** The index of the last '(' before the first newline of `s`: where
      the greedy match of '.*\(' from the start of `s` ends. */
  function LineOpenParen(s: string): (r: Option<nat>)
    ensures r.Some? ==> r.value < LineLength(s) && s[r.value] == '('
    ensures r.Some? ==> forall j :: r.value < j < LineLength(s) ==> s[j] != '('
    ensures r.None? ==> forall j :: 0 <= j < LineLength(s) ==> s[j] != '('
  {
    if s == [] || s[0] == '\n' then None
    else match LineOpenParen(s[1..])
      case Some(k) => Some(k + 1)
      case None => if s[0] == '(' then Some(0) else None
  }

  /** re.sub('.*\(|\).*', '', title), scanning left to right: a stretch up
      to the last '(' of the current line is removed, and so is a ')' with
      the rest of its line; every other character stays. */
  function UnitOf(s: string): string
    decreases |s|
  {
    if s == [] then []
    else match LineOpenParen(s)
      case Some(p) => UnitOf(s[p + 1..])
      case None =>
        if s[0] == ')' then UnitOf(s[LineLength(s)..])
        else [s[0]] + UnitOf(s[1..])
  }

  /** A line without a newline is the whole of `s`. */
  lemma {:induction false} WholeLine(s: string)
    requires forall i :: 0 <= i < |s| ==> s[i] != '\n'
    ensures LineLength(s) == |s|
  {
    if s != [] {
      WholeLine(s[1..]);
    }
  }

  /** Without a '(' there is no '(' to resume after. */
  lemma {:induction false} NoLineOpenParen(s: string)
    requires forall i :: 0 <= i < |s| ==> s[i] != '('
    ensures LineOpenParen(s).None?
  {
    if s != [] && s[0] != '\n' {
      NoLineOpenParen(s[1..]);
    }
  }

  /** The '(' after `pre` is the last one of the line when `post` has none
      and the line does not end before it. */
  lemma {:induction false} LineOpenParenAt(pre: string, post: string)
    requires forall i :: 0 <= i < |pre| ==> pre[i] != '\n'
    requires forall i :: 0 <= i < |post| ==> post[i] != '('
    ensures LineOpenParen(pre + "(" + post) == Some(|pre|)
  {
    var s := pre + "(" + post;
    if pre == [] {
      assert s[1..] == post;
      NoLineOpenParen(post);
    } else {
      assert s[1..] == pre[1..] + "(" + post;
      LineOpenParenAt(pre[1..], post);
    }
  }

  /** One step of the unit scan over text without '(': a ')' drops the rest
      of the line, any other character is kept. */
  lemma {:induction false} UnitOfStep(s: string)
    requires s != []
    requires forall i :: 0 <= i < |s| ==> s[i] != '(' && s[i] != '\n'
    ensures UnitOf(s) == if s[0] == ')' then [] else [s[0]] + UnitOf(s[1..])
  {
    WholeLine(s);
    NoLineOpenParen(s);
    assert s[|s|..] == [];
  }

  /** Characters other than parentheses and newlines are kept. */
  lemma {:induction false} UnitOfKeeps(u: string, rest: string)
    requires forall i :: 0 <= i < |u| ==> u[i] != '(' && u[i] != ')' && u[i] != '\n'
    requires forall i :: 0 <= i < |rest| ==> rest[i] != '(' && rest[i] != '\n'
    ensures UnitOf(u + rest) == u + UnitOf(rest)
  {
    if u != [] {
      var s := u + rest;
      var t := UnitOf(rest);
      assert forall i :: 0 <= i < |s| ==> s[i] != '(' && s[i] != '\n';
      UnitOfStep(s);
      assert s[1..] == u[1..] + rest;
      UnitOfKeeps(u[1..], rest);
      assert [u[0]] + (u[1..] + t) == ([u[0]] + u[1..]) + t;
      assert [u[0]] + u[1..] == u;
    } else {
      assert u + rest == rest;
    }
  }

  /** Text without '(' or ')' passes the unit substitution unchanged. */
  lemma {:induction false} UnitOfNoParens(s: string)
    requires forall i :: 0 <= i < |s| ==> s[i] != '(' && s[i] != ')'
    ensures UnitOf(s) == s
  {
    if s != [] {
      NoLineOpenParen(s);
      UnitOfNoParens(s[1..]);
    }
  }

  /** The scan resumes after the last '(' of the line. */
  lemma {:induction false} UnitOfAfterParen(pre: string, post: string)
    requires forall i :: 0 <= i < |pre| ==> pre[i] != '\n'
    requires forall i :: 0 <= i < |post| ==> post[i] != '('
    ensures UnitOf(pre + "(" + post) == UnitOf(post)
  {
    LineOpenParenAt(pre, post);
    assert (pre + "(" + post)[|pre| + 1..] == post;
  }

  /** The first " (" of a title is the one right after a name without '('. */
  lemma {:induction false} NameOfTitle(name: string, after: string)
    requires forall i :: 0 <= i < |name| ==> name[i] != '('
    ensures NameOf(name + " (" + after) == name
  {
    var title := name + " (" + after;
    assert OccursAt(title, " (", |name|) by { assert title[|name|..|name| + 2] == " ("; }
    forall k: nat | k < |name| ensures !OccursAt(title, " (", k) {
      assert title[k..k + 2][1] == title[k + 1];
    }
    assert title[..|name|] == name;
  }

  /** The unit of a title is what lies between its last '(' and the
      following ')'. */
  lemma {:induction false} UnitOfTitle(name: string, unit: string, tail: string)
    requires forall i :: 0 <= i < |name| ==> name[i] != '\n'
    requires forall i :: 0 <= i < |unit| ==> unit[i] != '(' && unit[i] != ')' && unit[i] != '\n'
    requires forall i :: 0 <= i < |tail| ==> tail[i] != '(' && tail[i] != '\n'
    ensures UnitOf(name + " (" + unit + ")" + tail) == unit
  {
    var close := ")" + tail;
    var after := unit + close;
    var pre := name + " ";
    assert name + " (" + unit + ")" + tail == pre + "(" + after;
    assert forall i :: 0 <= i < |close| ==> close[i] != '(' && close[i] != '\n';
    assert forall i :: 0 <= i < |after| ==> after[i] != '(';
    assert forall i :: 0 <= i < |pre| ==> pre[i] != '\n';
    UnitOfAfterParen(pre, after);
    UnitOfKeeps(unit, close);
    UnitOfStep(close);
    assert unit + [] == unit;
  }

  /** A title "name (unit)" gives that name and that unit. */
  lemma {:induction false} TitleNameUnit(name: string, unit: string, tail: string)
    requires forall i :: 0 <= i < |name| ==> name[i] != '(' && name[i] != '\n'
    requires forall i :: 0 <= i < |unit| ==> unit[i] != '(' && unit[i] != ')' && unit[i] != '\n'
    requires forall i :: 0 <= i < |tail| ==> tail[i] != '(' && tail[i] != '\n'
    ensures NameOf(name + " (" + unit + ")" + tail) == name
    ensures UnitOf(name + " (" + unit + ")" + tail) == unit
  {
    assert name + " (" + unit + ")" + tail == name + " (" + (unit + ")" + tail);
    NameOfTitle(name, unit + ")" + tail);
    UnitOfTitle(name, unit, tail);
  }

  /** A title without parentheses is both its own name and its own unit. */
  lemma {:induction false} TitleWithoutParens(title: string)
    requires forall i :: 0 <= i < |title| ==> title[i] != '(' && title[i] != ')'
    ensures NameOf(title) == title && UnitOf(title) == title
  {
    UnitOfNoParens(title);
    forall k: nat | k + 2 <= |title| ensures !OccursAt(title, " (", k) {
      assert title[k..k + 2][1] == title[k + 1];
    }
  }

  /** Lines 148-149: the (name, unit) pair of every title. */
  function TitlePairs(titles: seq<string>): (pairs: seq<(string, string)>)
    ensures |pairs| == |titles|
  {
    seq(|titles|, i requires 0 <= i < |titles| => (NameOf(titles[i]), UnitOf(titles[i])))
  }

  /** Lines 150-152: the unit of every record name, stored name by name; a
      later title with the same name overwrites an earlier one. */
  method UnitTable(pairs: seq<(string, string)>) returns (units: map<string, string>)
    ensures LastWins(pairs, |pairs|, units)
  {
    units := map[];
    var n := 0;
    while n < |pairs|
      invariant 0 <= n <= |pairs| && units == StoreAll(pairs, n)
    {
      units := units[pairs[n].0 := pairs[n].1];
      n := n + 1;
    }
    StoreAllLastWins(pairs, |pairs|, units);
  }

  // ---------------------------------------------------------------------
  // Scan numbers

  /** np.floor_divide(range(rows), 16): the scan number of every row. */
  function ScanNumbers(rows: nat): (scans: seq<int>)
    ensures |scans| == rows
  {
    seq(rows, i => i / 16)
  }

  /** Scan numbers start at 0, never decrease and go up by at most one. */
  lemma {:induction false} ScanNumbersOrder(rows: nat)
    ensures rows > 0 ==> ScanNumbers(rows)[0] == 0
    ensures forall i, j :: 0 <= i <= j < rows ==> ScanNumbers(rows)[i] <= ScanNumbers(rows)[j]
    ensures forall i :: 0 <= i < rows - 1 ==>
              ScanNumbers(rows)[i + 1] == ScanNumbers(rows)[i] || ScanNumbers(rows)[i + 1] == ScanNumbers(rows)[i] + 1
  {
  }

  /** Scan k holds exactly the rows 16k .. 16k+15, so no scan holds more than 16. */
  lemma {:induction false} ScanMembers(rows: nat, k: int)
    ensures forall i :: 0 <= i < rows ==> (ScanNumbers(rows)[i] == k <==> 16 * k <= i < 16 * k + 16)
  {
  }
}
