/** The Python string built-ins that the importers of misc.py are made of:
    str.isspace and str.strip, str.split and the search it performs,
    int(str) and str(int).
    Each is stated once here and used by the three importer modules. */
module PyText {
  import opened Wrappers

  /** str.isspace for one character: the ASCII controls TAB..CR, the
      separators \x1c..\x1f, space, NEL, NBSP and the Unicode space characters. */
  predicate IsSpace(c: char) {
    var k := c as int;
    (9 <= k <= 13) || (28 <= k <= 32) || k == 0x85 || k == 0xA0 || k == 0x1680
    || (0x2000 <= k <= 0x200A) || k == 0x2028 || k == 0x2029 || k == 0x202F
    || k == 0x205F || k == 0x3000
  }

  /** The characters int() skips around a number: str.isspace, except the
      ASCII separators \x1c..\x1f, which int() treats as ordinary text. */
  predicate IntSpace(c: char) {
    IsSpace(c) && !(28 <= c as int <= 31)
  }

  /** `s` without its leading `space` characters. */
  function TrimStart(s: string, space: char -> bool): (r: string)
    ensures |r| <= |s| && r == s[|s| - |r|..]
    ensures r == [] || !space(r[0])
    ensures forall i :: 0 <= i < |s| - |r| ==> space(s[i])
  {
    if s != [] && space(s[0]) then
      var r := TrimStart(s[1..], space);
      assert forall i :: 1 <= i < |s| - |r| ==> s[i] == s[1..][i - 1];
      r
    else s
  }

  /** `s` without its trailing `space` characters. */
  function TrimEnd(s: string, space: char -> bool): (r: string)
    ensures |r| <= |s| && r == s[..|r|]
    ensures r == [] || !space(r[|r| - 1])
    ensures forall i :: |r| <= i < |s| ==> space(s[i])
  {
    if s != [] && space(s[|s| - 1]) then
      var r := TrimEnd(s[..|s| - 1], space);
      assert forall i :: |r| <= i < |s| - 1 ==> s[i] == s[..|s| - 1][i];
      r
    else s
  }

  /** `s` without `space` characters at either end. */
  function Trim(s: string, space: char -> bool): string {
    TrimEnd(TrimStart(s, space), space)
  }

  /** str.strip() with no argument. */
  function Strip(s: string): string {
    Trim(s, IsSpace)
  }

  /** A string that neither starts nor ends with a space is its own trim. */
  lemma {:induction false} TrimUnchanged(s: string, space: char -> bool)
    requires s == [] || (!space(s[0]) && !space(s[|s| - 1]))
    ensures Trim(s, space) == s
  {
  }

  lemma {:induction false} TrimStartAppend(s: string, c: char, space: char -> bool)
    ensures TrimStart(s + [c], space)
         == if TrimStart(s, space) == [] then TrimStart([c], space) else TrimStart(s, space) + [c]
  {
    if s == [] {
      assert s + [c] == [c];
    } else {
      assert (s + [c])[1..] == s[1..] + [c];
      if space(s[0]) {
        TrimStartAppend(s[1..], c, space);
      }
    }
  }

  /** A trailing space never changes what the trim returns; for Strip, a
      line's newline never changes what strip() returns. */
  lemma {:induction false} TrimAppendSpace(s: string, c: char, space: char -> bool)
    requires space(c)
    ensures Trim(s + [c], space) == Trim(s, space)
  {
    TrimStartAppend(s, c, space);
    var t := TrimStart(s, space);
    if t == [] {
      assert TrimStart([c], space) == TrimStart([], space) == [];
      assert TrimStart(s + [c], space) == [];
    } else {
      var u := t + [c];
      assert TrimStart(s + [c], space) == u;
      assert u[..|u| - 1] == t;
      assert TrimEnd(u, space) == TrimEnd(t, space);
    }
  }

  /** `pat` occurs in `s` starting at index `k`. */
  predicate OccursAt(s: string, pat: string, k: nat) {
    k + |pat| <= |s| && s[k..k + |pat|] == pat
  }

  lemma {:induction false} OccursAtShift(s: string, pat: string)
    requires |s| > 0
    ensures forall j: nat :: OccursAt(s[1..], pat, j) <==> OccursAt(s, pat, j + 1)
    ensures forall j: nat :: 0 < j ==> (OccursAt(s, pat, j) <==> OccursAt(s[1..], pat, j - 1))
    ensures OccursAt(s, pat, 0) <==> |pat| <= |s| && s[..|pat|] == pat
  {
    forall j: nat
      ensures OccursAt(s[1..], pat, j) <==> OccursAt(s, pat, j + 1)
    {
      if j + 1 + |pat| <= |s| {
        assert s[1..][j..j + |pat|] == s[j + 1..j + 1 + |pat|];
      }
    }
  }

  /** The search str.split performs for a non-empty separator `pat`: the
      index of its first occurrence. */
  function Find(s: string, pat: string): (r: Option<nat>)
    requires pat != []
    ensures r.Some? ==> OccursAt(s, pat, r.value)
    ensures forall j: nat :: (r.None? || j < r.value) ==> !OccursAt(s, pat, j)
    decreases |s|
  {
    if |s| < |pat| then None
    else if s[..|pat|] == pat then Some(0)
    else
      OccursAtShift(s, pat);
      match Find(s[1..], pat)
      case None => None
      case Some(k) => Some(k + 1)
  }

  /** str.split(pat) for a non-empty separator: the pieces between
      successive leftmost occurrences. */
  function Split(s: string, pat: string): (parts: seq<string>)
    requires pat != []
    ensures |parts| >= 1
    decreases |s|
  {
    match Find(s, pat)
    case None => [s]
    case Some(k) => [s[..k]] + Split(s[k + |pat|..], pat)
  }

  /** pat.join(parts), the inverse of Split. */
  function Join(parts: seq<string>, pat: string): string {
    if parts == [] then []
    else if |parts| == 1 then parts[0]
    else parts[0] + pat + Join(parts[1..], pat)
  }

  /** Splitting and joining again gives back the string. */
  lemma {:induction false} JoinSplit(s: string, pat: string)
    requires pat != []
    ensures Join(Split(s, pat), pat) == s
    decreases |s|
  {
    match Find(s, pat)
    case None =>
    case Some(k) =>
      var rest := Split(s[k + |pat|..], pat);
      JoinSplit(s[k + |pat|..], pat);
      assert Split(s, pat) == [s[..k]] + rest;
      assert ([s[..k]] + rest)[1..] == rest;
      assert s == s[..k] + s[k..k + |pat|] + s[k + |pat|..];
  }

  lemma {:induction false} OccursInPrefix(s: string, pat: string, k: nat, j: nat)
    requires k <= |s| && OccursAt(s[..k], pat, j)
    ensures OccursAt(s, pat, j) && j + |pat| <= k
  {
    assert s[..k][j..j + |pat|] == s[j..j + |pat|];
  }

  /** No piece of a split contains the separator. */
  lemma {:induction false} SplitPartsFree(s: string, pat: string)
    requires pat != []
    ensures forall i: nat, j: nat :: i < |Split(s, pat)| ==> !OccursAt(Split(s, pat)[i], pat, j)
    decreases |s|
  {
    match Find(s, pat)
    case None =>
    case Some(k) =>
      var rest := Split(s[k + |pat|..], pat);
      SplitPartsFree(s[k + |pat|..], pat);
      assert Split(s, pat) == [s[..k]] + rest;
      forall i: nat, j: nat | i < |Split(s, pat)|
        ensures !OccursAt(Split(s, pat)[i], pat, j)
      {
        if i == 0 {
          if OccursAt(s[..k], pat, j) {
            OccursInPrefix(s, pat, k, j);
          }
        } else {
          assert Split(s, pat)[i] == rest[i - 1];
        }
      }
  }

  /** The length of the first line of `s`, its newline not counted. */
  function LineLength(s: string): (n: nat)
    ensures n <= |s|
  {
    if s == [] || s[0] == '\n' then 0 else 1 + LineLength(s[1..])
  }

  /** LineLength stops at the first newline, and only there. */
  lemma {:induction false} LineLengthStops(s: string)
    ensures forall i :: 0 <= i < LineLength(s) ==> s[i] != '\n'
    ensures LineLength(s) < |s| ==> s[LineLength(s)] == '\n'
  {
    if s != [] && s[0] != '\n' {
      LineLengthStops(s[1..]);
    }
  }

  predicate IsDigit(c: char) {
    '0' <= c <= '9'
  }

  /** The digit body int() accepts in base 10: ASCII digits, with single
      underscores allowed between two digits. */
  predicate IsDigitRun(d: string) {
    && |d| > 0 && IsDigit(d[0]) && IsDigit(d[|d| - 1])
    && (forall i :: 0 <= i < |d| ==> IsDigit(d[i]) || d[i] == '_')
    && (forall i :: 0 <= i < |d| - 1 ==> !(d[i] == '_' && d[i + 1] == '_'))
  }

  /** The number a digit run denotes; underscores are skipped. */
  function DigitsValue(d: string): nat {
    if d == [] then 0
    else if d[|d| - 1] == '_' then DigitsValue(d[..|d| - 1])
    else 10 * DigitsValue(d[..|d| - 1]) + (if IsDigit(d[|d| - 1]) then d[|d| - 1] as int - '0' as int else 0)
  }

  /** int() of an already stripped string: an optional sign, then a digit run. */
  function ParseStripped(t: string): Option<int> {
    if |t| > 0 && (t[0] == '+' || t[0] == '-') then
      if IsDigitRun(t[1..]) then
        var v: int := DigitsValue(t[1..]);
        Some(if t[0] == '-' then -v else v)
      else None
    else if IsDigitRun(t) then Some(DigitsValue(t))
    else None
  }

  /** int(s) for a str argument: surrounding spaces are ignored, then an
      optional sign and a digit run; anything else raises (None). */
  function ParseInt(s: string): Option<int> {
    ParseStripped(Trim(s, IntSpace))
  }

  /** A line ending after a number does not change what int() reads. */
  lemma {:induction false} ParseIntAppendSpace(s: string, c: char)
    requires IntSpace(c)
    ensures ParseInt(s + [c]) == ParseInt(s)
  {
    TrimAppendSpace(s, c, IntSpace);
  }

  /** int() rejects text that starts with one of the separators \x1c..\x1f,
      although strip() would have removed it. */
  lemma {:induction false} ParseIntKeepsSeparator(c: char, s: string)
    requires 28 <= c as int <= 31
    ensures IsSpace(c) && ParseInt([c] + s).None?
  {
    var t := TrimStart([c] + s, IntSpace);
    assert t == [c] + s;
    var u := TrimEnd(t, IntSpace);
    assert u != [] && u[0] == c;
  }

  function DigitChar(k: nat): char
    requires k < 10
  {
    ('0' as int + k) as char
  }

  /** The decimal digits of a natural number, most significant first. */
  function NatDigits(n: nat): string
    decreases n
  {
    if n < 10 then [DigitChar(n)] else NatDigits(n / 10) + [DigitChar(n % 10)]
  }

  /** str(n) for an int. */
  function DecimalString(n: int): string {
    if n < 0 then "-" + NatDigits(-n) else NatDigits(n)
  }

  lemma {:induction false} NatDigitsRun(n: nat)
    ensures IsDigitRun(NatDigits(n)) && DigitsValue(NatDigits(n)) == n
    ensures forall i :: 0 <= i < |NatDigits(n)| ==> IsDigit(NatDigits(n)[i])
    decreases n
  {
    if n >= 10 {
      var d := NatDigits(n / 10);
      NatDigitsRun(n / 10);
      var c := DigitChar(n % 10);
      assert NatDigits(n) == d + [c];
      assert (d + [c])[..|d|] == d;
      assert forall i :: 0 <= i < |d + [c]| ==> IsDigit((d + [c])[i]);
    }
  }

  /** The decimal spelling of a number has no surrounding spaces. */
  lemma {:induction false} DecimalStringStripped(n: int)
    ensures Trim(DecimalString(n), IntSpace) == DecimalString(n)
  {
    var m: nat := if n < 0 then -n else n;
    NatDigitsRun(m);
    var d := NatDigits(m);
    var s := DecimalString(n);
    if n < 0 {
      assert s == "-" + d;
      assert s[|s| - 1] == d[|d| - 1];
    }
    TrimUnchanged(s, IntSpace);
  }

  /** The sign and digits of the decimal spelling read back as the number. */
  lemma {:induction false} DecimalStringDigits(n: int)
    ensures ParseStripped(DecimalString(n)) == Some(n)
  {
    var m: nat := if n < 0 then -n else n;
    NatDigitsRun(m);
    var d := NatDigits(m);
    if n < 0 {
      assert ("-" + d)[1..] == d;
    } else {
      assert d[0] != '+' && d[0] != '-';
    }
  }

  /** int(str(n)) == n: the decimal spelling of a number reads back as it. */
  lemma {:induction false} ParseDecimalString(n: int)
    ensures ParseInt(DecimalString(n)) == Some(n)
  {
    DecimalStringStripped(n);
    DecimalStringDigits(n);
  }

  /** str is injective on ints, so distinct record types get distinct keys. */
  lemma {:induction false} DecimalStringInjective(a: int, b: int)
    requires DecimalString(a) == DecimalString(b)
    ensures a == b
  {
    ParseDecimalString(a);
    ParseDecimalString(b);
  }
}
