/**
 * Cleaning of the raw beach-weather table: column names normalised to
 * lower-case snake case, the timestamp column parsed in place, then the
 * seven scoring columns kept, incomplete rows dropped, rows sorted by time
 * and renumbered.
 */
module DataPrep {
  import opened Wrappers
  import opened Frames

  // ---------------------------------------------------------------------
  // Column names

  /** Python's `str.isspace` characters, which `str.strip()` removes. */
  predicate IsSpace(c: char) {
    var n := c as int;
    || 9 <= n <= 13 || 28 <= n <= 32 || n == 0x85 || n == 0xA0 || n == 0x1680
    || 0x2000 <= n <= 0x200A || n == 0x2028 || n == 0x2029 || n == 0x202F
    || n == 0x205F || n == 0x3000
  }

  predicate AllSpace(s: string) {
    forall k :: 0 <= k < |s| ==> IsSpace(s[k])
  }

  lemma AllSpaceConcat(a: string, b: string)
    requires AllSpace(a) && AllSpace(b)
    ensures AllSpace(a + b)
  {
    forall k | 0 <= k < |a + b| ensures IsSpace((a + b)[k]) {
      if k >= |a| { assert (a + b)[k] == b[k - |a|]; }
    }
  }

  /** The number of whitespace characters at the front of `s`. */
  function LeadingSpaces(s: string): (i: nat)
    ensures i <= |s| && forall k :: 0 <= k < i ==> IsSpace(s[k])
    ensures i < |s| ==> !IsSpace(s[i])
  {
    if |s| == 0 || !IsSpace(s[0]) then 0
    else 1 + LeadingSpaces(s[1..])
  }

  /** Where the whitespace at the end of `s` begins. */
  function TrailingStart(s: string): (j: nat)
    ensures j <= |s| && forall k :: j <= k < |s| ==> IsSpace(s[k])
    ensures j > 0 ==> !IsSpace(s[j - 1])
  {
    if |s| == 0 || !IsSpace(s[|s| - 1]) then |s|
    else TrailingStart(s[..|s| - 1])
  }

  /** `str.strip()`: `s` without its leading and trailing whitespace. */
  function Strip(s: string): (r: string)
    ensures exists i, j :: 0 <= i <= j <= |s| && r == s[i..j] && AllSpace(s[..i]) && AllSpace(s[j..])
    ensures r == [] || (!IsSpace(r[0]) && !IsSpace(r[|r| - 1]))
    ensures |r| <= |s|
  {
    var i := LeadingSpaces(s);
    if i == |s| then
      assert AllSpace(s[..i]) && s[i..] == [];
      []
    else
      var j := TrailingStart(s);
      assert AllSpace(s[..i]) && AllSpace(s[j..]);
      s[i..j]
  }

  /**
   * Any split of `s` into whitespace, a part that neither starts nor ends
   * with whitespace, and whitespace, is the one `Strip` makes.
   */
  lemma StripUnique(s: string, i: int, j: int)
    requires 0 <= i <= j <= |s| && AllSpace(s[..i]) && AllSpace(s[j..])
    requires i < j ==> !IsSpace(s[i]) && !IsSpace(s[j - 1])
    ensures Strip(s) == s[i..j]
  {
    assert forall k :: 0 <= k < i ==> IsSpace(s[k]) by {
      forall k | 0 <= k < i ensures IsSpace(s[k]) { assert s[k] == s[..i][k]; }
    }
    assert forall k :: j <= k < |s| ==> IsSpace(s[k]) by {
      forall k | j <= k < |s| ensures IsSpace(s[k]) { assert s[k] == s[j..][k - j]; }
    }
    var l := LeadingSpaces(s);
    if i < j {
      assert l == i;
      assert TrailingStart(s) == j;
    } else {
      assert l == |s|;
    }
  }

  /** Slices of a padded string that line up with slices of the original. */
  lemma PaddedSlices(p: string, s: string, q: string, i: int, j: int)
    requires 0 <= i <= j <= |s|
    ensures (p + s + q)[..|p| + i] == p + s[..i]
    ensures (p + s + q)[|p| + j..] == s[j..] + q
    ensures (p + s + q)[|p| + i..|p| + j] == s[i..j]
  {
  }

  /** Whitespace around a name does not change what `Strip` leaves. */
  lemma StripPadding(p: string, s: string, q: string)
    requires AllSpace(p) && AllSpace(q)
    ensures Strip(p + s + q) == Strip(s)
  {
    var i, j := StripSplit(s);
    PaddedSplit(p, s, q, i, j);
    StripUnique(p + s + q, |p| + i, |p| + j);
  }

  /** The split `Strip` makes: whitespace, a part with no whitespace at either end, whitespace. */
  lemma StripSplit(s: string) returns (i: int, j: int)
    ensures 0 <= i <= j <= |s| && Strip(s) == s[i..j] && AllSpace(s[..i]) && AllSpace(s[j..])
    ensures i < j ==> !IsSpace(s[i]) && !IsSpace(s[j - 1])
  {
    i := LeadingSpaces(s);
    if i == |s| {
      j := i;
      assert AllSpace(s[..i]) && s[j..] == [];
    } else {
      j := TrailingStart(s);
      assert AllSpace(s[..i]) && AllSpace(s[j..]);
    }
  }

  /** A whitespace split of `s` is, shifted by `|p|`, a whitespace split of `p + s + q`. */
  lemma PaddedSplit(p: string, s: string, q: string, i: int, j: int)
    requires AllSpace(p) && AllSpace(q)
    requires 0 <= i <= j <= |s| && AllSpace(s[..i]) && AllSpace(s[j..])
    requires i < j ==> !IsSpace(s[i]) && !IsSpace(s[j - 1])
    ensures AllSpace((p + s + q)[..|p| + i]) && AllSpace((p + s + q)[|p| + j..])
    ensures i < j ==> !IsSpace((p + s + q)[|p| + i]) && !IsSpace((p + s + q)[|p| + j - 1])
    ensures (p + s + q)[|p| + i..|p| + j] == s[i..j]
  {
    var t := p + s + q;
    PaddedSlices(p, s, q, i, j);
    AllSpaceConcat(p, s[..i]);
    AllSpaceConcat(s[j..], q);
    if i < j {
      assert t[|p| + i] == s[i] && t[|p| + j - 1] == s[j - 1];
    }
  }

  /** `str.lower()` on one character (ASCII letters). */
  function LowerChar(c: char): char {
    if 'A' <= c <= 'Z' then (c as int + 32) as char else c
  }

  function Lower(s: string): (r: string)
    ensures |r| == |s| && forall k :: 0 <= k < |s| ==> r[k] == LowerChar(s[k])
  {
    seq(|s|, k requires 0 <= k < |s| => LowerChar(s[k]))
  }

  /** `str.replace(" ", "_")`. */
  function ReplaceSpaces(s: string): (r: string)
    ensures |r| == |s| && forall k :: 0 <= k < |s| ==> r[k] == (if s[k] == ' ' then '_' else s[k])
  {
    seq(|s|, k requires 0 <= k < |s| => if s[k] == ' ' then '_' else s[k])
  }

  /** `str.replace(c, "")`: every occurrence of `c` removed, the rest kept in order. */
  function RemoveChar(s: string, c: char): (r: string)
    ensures c !in r
    ensures forall x :: x in r ==> x in s
    ensures forall x :: x != c && x in s ==> x in r
    ensures |r| <= |s|
    ensures c !in s ==> r == s
    ensures |s| == 1 ==> r == (if s[0] == c then [] else s)
  {
    if s == [] then []
    else
      var rest := RemoveChar(s[1..], c);
      assert s == [s[0]] + s[1..];
      if s[0] == c then rest else [s[0]] + rest
  }

  /** Removing a character from a concatenation removes it from each part, so the survivors keep their order. */
  lemma {:induction false} RemoveCharConcat(a: string, b: string, c: char)
    ensures RemoveChar(a + b, c) == RemoveChar(a, c) + RemoveChar(b, c)
    decreases |a|
  {
    if a == [] {
      assert a + b == b;
    } else {
      assert (a + b)[0] == a[0] && (a + b)[1..] == a[1..] + b;
      RemoveCharConcat(a[1..], b, c);
    }
  }

  /** Lower-casing and then replacing spaces leaves no space and no upper-case ASCII letter. */
  lemma LowerUnderscoredHasNoSpaceOrUpper(s: string)
    ensures forall x :: x in ReplaceSpaces(Lower(s)) ==> x != ' ' && !('A' <= x <= 'Z')
  {
    var u := ReplaceSpaces(Lower(s));
    forall x | x in u ensures x != ' ' && !('A' <= x <= 'Z') {
      var k :| 0 <= k < |u| && u[k] == x;
    }
  }

  /** One column name after `clean_column_names`. */
  function CleanName(name: string): (r: string)
    ensures ' ' !in r && '(' !in r && ')' !in r
    ensures forall x :: x in r ==> !('A' <= x <= 'Z')
    ensures |r| <= |name|
  {
    var stripped := Strip(name);
    LowerUnderscoredHasNoSpaceOrUpper(stripped);
    RemoveChar(RemoveChar(ReplaceSpaces(Lower(stripped)), '('), ')')
  }

  /** What one character of a stripped name becomes: '_' for a space, nothing for a parenthesis, else its lower case. */
  function CleanChar(ch: char): string {
    if ch == ' ' then "_"
    else if ch == '(' || ch == ')' then ""
    else [LowerChar(ch)]
  }

  /** A character-by-character cleaning of a whole string. */
  function CleanChars(s: string): string {
    if s == [] then [] else CleanChar(s[0]) + CleanChars(s[1..])
  }

  /** The four-step pipeline on a stripped name cleans it character by character, in order. */
  lemma {:induction false} CleanPipelineCharwise(s: string)
    ensures RemoveChar(RemoveChar(ReplaceSpaces(Lower(s)), '('), ')') == CleanChars(s)
    decreases |s|
  {
    if s != [] {
      CleanPipelineHead(s);
      CleanPipelineCharwise(s[1..]);
    }
  }

  /** The pipeline treats the first character on its own. */
  lemma CleanPipelineHead(s: string)
    requires s != []
    ensures RemoveChar(RemoveChar(ReplaceSpaces(Lower(s)), '('), ')')
      == CleanChar(s[0]) + RemoveChar(RemoveChar(ReplaceSpaces(Lower(s[1..])), '('), ')')
  {
    var t := s[1..];
    var u0 := if LowerChar(s[0]) == ' ' then '_' else LowerChar(s[0]);
    assert Lower(s) == [LowerChar(s[0])] + Lower(t);
    assert ReplaceSpaces(Lower(s)) == [u0] + ReplaceSpaces(Lower(t));
    var w := ReplaceSpaces(Lower(t));
    RemoveCharConcat([u0], w, '(');
    RemoveCharConcat(RemoveChar([u0], '('), RemoveChar(w, '('), ')');
    CleanOneChar(s[0]);
  }

  /** On a single character the pipeline is `CleanChar`. */
  lemma CleanOneChar(ch: char)
    ensures RemoveChar(RemoveChar([if LowerChar(ch) == ' ' then '_' else LowerChar(ch)], '('), ')') == CleanChar(ch)
  {
  }

  /**
   * `clean_column_names` on one name: strip the ends, then every remaining
   * character becomes its cleaned form, in order; nothing else is dropped.
   */
  lemma CleanNameIsCharwise(name: string)
    ensures CleanName(name) == CleanChars(Strip(name))
  {
    CleanPipelineCharwise(Strip(name));
  }

  /** Every name of a list after `clean_column_names`. */
  function CleanNames(columns: seq<string>): (r: seq<string>)
    ensures |r| == |columns|
    ensures forall i :: 0 <= i < |columns| ==> r[i] == CleanName(columns[i])
  {
    seq(|columns|, i requires 0 <= i < |columns| => CleanName(columns[i]))
  }

  /** Whitespace at either end of a name is dropped, not turned into '_'. */
  lemma CleanNameIgnoresPadding(p: string, name: string, q: string)
    requires AllSpace(p) && AllSpace(q)
    ensures CleanName(p + name + q) == CleanName(name)
  {
    StripPadding(p, name, q);
  }

  /** Lower-case letters, digits and underscores only. */
  predicate IsSnakeCase(name: string) {
    forall k :: 0 <= k < |name| ==> 'a' <= name[k] <= 'z' || '0' <= name[k] <= '9' || name[k] == '_'
  }

  /** A name that is already lower-case snake case comes out unchanged. */
  lemma CleanNameKeepsCleanName(name: string)
    requires IsSnakeCase(name)
    ensures CleanName(name) == name
  {
    assert name[..0] == [] && name[|name|..] == [];
    assert forall x :: x in name ==> x != ' ' && x != '(' && x != ')';
    StripUnique(name, 0, |name|);
    assert name[0..|name|] == name;
    assert Lower(name) == name;
    assert ReplaceSpaces(name) == name;
  }

  lemma StripExample()
    ensures Strip("Maximum Wind Speed") == "Maximum Wind Speed"
  {
    var s := "Maximum Wind Speed";
    assert s[..0] == [] && s[|s|..] == [];
    assert s[0] == 'M' && s[|s| - 1] == 'd';
    StripUnique(s, 0, |s|);
    assert s[0..|s|] == s;
  }

  lemma LowerExample()
    ensures Lower("Maximum Wind Speed") == "maximum wind speed"
  {
    var s, lowered := "Maximum Wind Speed", "maximum wind speed";
    forall k | 0 <= k < |s| ensures LowerChar(s[k]) == lowered[k] {
    }
  }

  /** The raw dataset's "Maximum Wind Speed" becomes "maximum_wind_speed". */
  lemma CleanNameExample()
    ensures CleanName("Maximum Wind Speed") == "maximum_wind_speed"
  {
    StripExample();
    LowerExample();
    var lowered, snake := "maximum wind speed", "maximum_wind_speed";
    assert ReplaceSpaces(lowered) == snake by {
      forall k | 0 <= k < |lowered| ensures (if lowered[k] == ' ' then '_' else lowered[k]) == snake[k] {
      }
    }
    assert '(' !in snake && ')' !in snake by {
      forall k | 0 <= k < |snake| ensures snake[k] != '(' && snake[k] != ')' {
      }
    }
    assert RemoveChar(snake, '(') == snake;
  }

  /** The kept columns are fixed points of the renaming. */
  lemma KeepColsAreClean()
    ensures forall k :: k in KeepCols ==> CleanName(k) == k
  {
    forall k | k in KeepCols ensures IsSnakeCase(k) {
    }
    forall k | k in KeepCols ensures CleanName(k) == k {
      CleanNameKeepsCleanName(k);
    }
  }

  /**
   * `clean_column_names`: renames the columns of `df` in place, keeping their
   * number and order, and returns the same frame.
   */
  method CleanColumnNames(df: Frame) returns (r: Frame)
    requires df.Valid()
    modifies df
    ensures r == df && df.Valid()
    ensures df.columns == CleanNames(old(df.columns))
    ensures df.rows == old(df.rows) && df.index == old(df.index)
  {
    df.columns := CleanNames(df.columns);
    r := df;
  }

  // ---------------------------------------------------------------------
  // Table preprocessing

  const TimestampColumn := "measurement_timestamp"

  /** The columns kept for threat scoring, in output order. */
  const KeepCols: seq<string> := [
    TimestampColumn, "air_temperature", "humidity", "rain_intensity",
    "wind_speed", "maximum_wind_speed", "barometric_pressure"]

  /** pandas' `KeyError`, naming the columns it could not find. */
  datatype KeyError = KeyError(missing: seq<string>)

  /**
   * `pd.to_datetime(value, errors="coerce")` for one cell, given the parser
   * for present values: missing values and unparseable ones become NaT.
   */
  function ToDatetime(c: Cell, parse: Cell -> Option<Instant>): (r: Cell)
    ensures r.Null? || r.Time?
    ensures IsMissing(c) ==> r.Null?
    ensures c.Time? ==> r == c
    ensures !IsMissing(c) && !c.Time? ==> (r.Time? <==> parse(c).Some?)
    ensures !IsMissing(c) && !c.Time? && parse(c).Some? ==> r == Time(parse(c).value)
  {
    if IsMissing(c) then Null
    else if c.Time? then c
    else match parse(c)
      case Some(t) => Time(t)
      case None => Null
  }

  /** The rows with column `j` converted by `ToDatetime`. */
  function ParseColumn(rows: seq<Row>, j: nat, parse: Cell -> Option<Instant>): (r: seq<Row>)
    requires forall i :: 0 <= i < |rows| ==> j < |rows[i]|
    ensures |r| == |rows|
    ensures forall i :: 0 <= i < |rows| ==> |r[i]| == |rows[i]| && r[i][j] == ToDatetime(rows[i][j], parse)
    ensures forall i, k :: 0 <= i < |rows| && 0 <= k < |rows[i]| && k != j ==> r[i][k] == rows[i][k]
  {
    seq(|rows|, i requires 0 <= i < |rows| => rows[i][j := ToDatetime(rows[i][j], parse)])
  }

  /** The requested columns that the table lacks, in request order. */
  function MissingColumns(columns: seq<string>, wanted: seq<string>): (m: seq<string>)
    ensures forall k :: k in m <==> k in wanted && k !in columns
  {
    if wanted == [] then []
    else
      var rest := MissingColumns(columns, wanted[1..]);
      assert forall k :: k in wanted <==> k == wanted[0] || k in wanted[1..];
      if wanted[0] in columns then rest else [wanted[0]] + rest
  }

  /** One row restricted to the requested columns, in request order. */
  function ProjectRow(columns: seq<string>, row: Row, wanted: seq<string>): (r: Row)
    requires |row| == |columns|
    requires forall k :: k in wanted ==> k in columns
    ensures |r| == |wanted|
    ensures forall t :: 0 <= t < |wanted| ==> r[t] == row[IndexOf(columns, wanted[t])]
  {
    seq(|wanted|, t requires 0 <= t < |wanted| => row[IndexOf(columns, wanted[t])])
  }

  /** `df[wanted]`: a `KeyError` naming the absent columns, else every row projected. */
  function Project(columns: seq<string>, rows: seq<Row>, wanted: seq<string>): (r: Result<seq<Row>, KeyError>)
    requires Shaped(columns, rows)
    ensures r.Failure? <==> exists k :: k in wanted && k !in columns
    ensures r.Failure? ==> r.error == KeyError(MissingColumns(columns, wanted))
    ensures r.Success? ==> |r.value| == |rows|
    ensures r.Success? ==> forall i :: 0 <= i < |rows| ==> r.value[i] == ProjectRow(columns, rows[i], wanted)
  {
    var missing := MissingColumns(columns, wanted);
    if missing != [] then
      assert missing[0] in missing;
      Failure(KeyError(missing))
    else
      Success(seq(|rows|, i requires 0 <= i < |rows| => ProjectRow(columns, rows[i], wanted)))
  }

  /** No cell of the row is missing. */
  predicate Complete(row: Row) {
    forall k :: 0 <= k < |row| ==> !IsMissing(row[k])
  }

  /** `dropna()`: exactly the complete rows are kept, each as often as it occurs. */
  function DropNa(rows: seq<Row>): (r: seq<Row>)
    ensures forall x :: multiset(r)[x] == if Complete(x) then multiset(rows)[x] else 0
    ensures |r| <= |rows|
    ensures |rows| == 1 ==> r == (if Complete(rows[0]) then rows else [])
  {
    if rows == [] then []
    else
      var rest := DropNa(rows[1..]);
      assert rows == [rows[0]] + rows[1..];
      if Complete(rows[0]) then [rows[0]] + rest else rest
  }

  /** `dropna` filters a concatenation part by part, so the kept rows stay in their original order. */
  lemma {:induction false} DropNaConcat(a: seq<Row>, b: seq<Row>)
    ensures DropNa(a + b) == DropNa(a) + DropNa(b)
    decreases |a|
  {
    if a == [] {
      assert a + b == b;
    } else {
      assert (a + b)[0] == a[0] && (a + b)[1..] == a[1..] + b;
      DropNaConcat(a[1..], b);
    }
  }

  /** The row's timestamp in its first column (0 where there is none). */
  function Stamp(row: Row): int {
    if |row| > 0 && row[0].Time? then row[0].t.nanos else 0
  }

  predicate SortedByTime(rows: seq<Row>) {
    forall i, j :: 0 <= i < j < |rows| ==> Stamp(rows[i]) <= Stamp(rows[j])
  }

  /** A row no later than every row of a sorted table can go in front of it. */
  lemma SortedCons(h: Row, t: seq<Row>)
    requires SortedByTime(t)
    requires forall y :: y in t ==> Stamp(h) <= Stamp(y)
    ensures SortedByTime([h] + t)
  {
    forall i, j | 0 <= i < j < |[h] + t| ensures Stamp(([h] + t)[i]) <= Stamp(([h] + t)[j]) {
      assert ([h] + t)[j] == t[j - 1];
      if i > 0 {
        assert ([h] + t)[i] == t[i - 1];
      }
    }
  }

  /** The first row of a sorted table is no later than any of its rows. */
  lemma SortedHeadFirst(s: seq<Row>)
    requires SortedByTime(s) && |s| > 0
    ensures forall y :: y in s ==> Stamp(s[0]) <= Stamp(y)
  {
    forall y | y in s ensures Stamp(s[0]) <= Stamp(y) {
      var k :| 0 <= k < |s| && s[k] == y;
    }
  }

  /** Insertion of one row into a time-sorted table. */
  function Insert(x: Row, s: seq<Row>): (r: seq<Row>)
    requires SortedByTime(s)
    ensures SortedByTime(r)
    ensures multiset(r) == multiset(s) + multiset{x}
    ensures |r| == |s| + 1
    ensures forall y :: y in r ==> y == x || y in s
  {
    if s == [] then [x]
    else if Stamp(x) <= Stamp(s[0]) then
      SortedHeadFirst(s);
      SortedCons(x, s);
      [x] + s
    else
      var rest := Insert(x, s[1..]);
      assert s == [s[0]] + s[1..];
      SortedHeadFirst(s);
      SortedCons(s[0], rest);
      [s[0]] + rest
  }

  /** `sort_values("measurement_timestamp")`: an ascending permutation. */
  function SortByTime(rows: seq<Row>): (r: seq<Row>)
    ensures SortedByTime(r)
    ensures multiset(r) == multiset(rows)
    ensures |r| == |rows|
  {
    if rows == [] then []
    else
      assert rows == [rows[0]] + rows[1..];
      Insert(rows[0], SortByTime(rows[1..]))
  }

  /** The table part of `preprocess_dataset`, on rows whose timestamps are already parsed. */
  function Preprocessed(columns: seq<string>, rows: seq<Row>): (r: Result<seq<Row>, KeyError>)
    requires Shaped(columns, rows)
    ensures r.Failure? <==> exists k :: k in KeepCols && k !in columns
    ensures r.Success? ==> SortedByTime(r.value) && forall x :: x in r.value ==> Complete(x)
  {
    match Project(columns, rows, KeepCols)
    case Failure(e) => Failure(e)
    case Success(projected) => Success(SortByTime(DropNa(projected)))
  }

  /** The rows of `preprocess_dataset`, timestamp parsing included. */
  function PreprocessTable(columns: seq<string>, rows: seq<Row>, parse: Cell -> Option<Instant>): (r: Result<seq<Row>, KeyError>)
    requires Shaped(columns, rows)
    ensures TimestampColumn !in columns ==> r == Failure(KeyError([TimestampColumn]))
    ensures r.Success? ==> SortedByTime(r.value) && forall x :: x in r.value ==> Complete(x)
  {
    if TimestampColumn !in columns then Failure(KeyError([TimestampColumn]))
    else Preprocessed(columns, ParseColumn(rows, IndexOf(columns, TimestampColumn), parse))
  }

  /** The index `0..n-1` left by `reset_index(drop=True)`. */
  function Renumbered(n: nat): (r: seq<int>)
    ensures |r| == n && forall i :: 0 <= i < n ==> r[i] == i
  {
    seq(n, i requires 0 <= i < n => i)
  }

  /**
   * What survives `preprocess_dataset`: the seven kept columns of input
   * rows, with no missing cell, sorted by timestamp; the missing columns are
   * reported exactly.
   */
  lemma {:induction false} PreprocessedRows(columns: seq<string>, rows: seq<Row>)
    requires Shaped(columns, rows)
    ensures Preprocessed(columns, rows).Failure? <==> exists k :: k in KeepCols && k !in columns
    ensures Preprocessed(columns, rows).Failure? ==> Preprocessed(columns, rows).error == KeyError(MissingColumns(columns, KeepCols))
    ensures Preprocessed(columns, rows).Success? ==>
      var out := Preprocessed(columns, rows).value;
      && |out| <= |rows|
      && SortedByTime(out)
      && (forall x :: x in out ==> |x| == |KeepCols| && Complete(x))
      && (forall x :: x in out ==> exists i :: 0 <= i < |rows| && x == ProjectRow(columns, rows[i], KeepCols))
      && (forall x :: multiset(out)[x] == if Complete(x) then multiset(Project(columns, rows, KeepCols).value)[x] else 0)
  {
    var p := Project(columns, rows, KeepCols);
    if p.Success? {
      var kept := DropNa(p.value);
      var out := SortByTime(kept);
      forall x | x in out
        ensures |x| == |KeepCols| && Complete(x)
        ensures exists i :: 0 <= i < |rows| && x == ProjectRow(columns, rows[i], KeepCols)
      {
        assert multiset(out)[x] > 0;
        assert multiset(kept)[x] > 0;
        assert Complete(x) && multiset(p.value)[x] > 0;
        assert x in p.value;
        var i :| 0 <= i < |p.value| && p.value[i] == x;
        assert x == ProjectRow(columns, rows[i], KeepCols);
      }
    }
  }

  /**
   * `preprocess_dataset` end to end: a missing timestamp column raises first;
   * otherwise every surviving row carries a parsed timestamp in its first
   * cell, so rows whose timestamp could not be parsed are gone.
   */
  lemma PreprocessTableRows(columns: seq<string>, rows: seq<Row>, parse: Cell -> Option<Instant>)
    requires Shaped(columns, rows)
    ensures TimestampColumn !in columns ==> PreprocessTable(columns, rows, parse) == Failure(KeyError([TimestampColumn]))
    ensures PreprocessTable(columns, rows, parse).Failure? <==> exists k :: k in KeepCols && k !in columns
    ensures PreprocessTable(columns, rows, parse).Success? ==>
      var parsed := ParseColumn(rows, IndexOf(columns, TimestampColumn), parse);
      var out := PreprocessTable(columns, rows, parse).value;
      && |out| <= |rows|
      && SortedByTime(out)
      && (forall x: Row :: x in out ==> |x| == |KeepCols| && Complete(x) && x[0].Time?)
      && (forall x :: x in out ==> exists i :: 0 <= i < |rows| && x == ProjectRow(columns, parsed[i], KeepCols))
      && (forall x :: multiset(out)[x] == if Complete(x) then multiset(Project(columns, parsed, KeepCols).value)[x] else 0)
  {
    if TimestampColumn in columns {
      var j := IndexOf(columns, TimestampColumn);
      var parsed := ParseColumn(rows, j, parse);
      assert Shaped(columns, parsed);
      PreprocessedRows(columns, parsed);
      if Preprocessed(columns, parsed).Success? {
        ParsedTimesSurvive(columns, rows, parse);
      }
    } else {
      assert KeepCols[0] == TimestampColumn;
    }
  }

  /**
   * A row's kept cells are all present after the parse exactly when they
   * were all present before it and its timestamp was a time or parsed.
   */
  lemma ParsedRowComplete(columns: seq<string>, rows: seq<Row>, parse: Cell -> Option<Instant>, i: int)
    requires Shaped(columns, rows) && 0 <= i < |rows|
    requires forall k :: k in KeepCols ==> k in columns
    ensures var j := IndexOf(columns, TimestampColumn);
      var c := rows[i][j];
      (Complete(ProjectRow(columns, ParseColumn(rows, j, parse)[i], KeepCols))
       <==> Complete(ProjectRow(columns, rows[i], KeepCols)) && (c.Time? || parse(c).Some?))
  {
    var j := IndexOf(columns, TimestampColumn);
    var parsed := ParseColumn(rows, j, parse);
    var x := ProjectRow(columns, parsed[i], KeepCols);
    var raw := ProjectRow(columns, rows[i], KeepCols);
    assert x[0] == ToDatetime(rows[i][j], parse) && raw[0] == rows[i][j];
    forall t | 1 <= t < |KeepCols| ensures x[t] == raw[t] {
      assert KeepCols[t] != TimestampColumn;
      assert IndexOf(columns, KeepCols[t]) != j;
    }
    if Complete(raw) && (rows[i][j].Time? || parse(rows[i][j]).Some?) {
      assert !IsMissing(x[0]);
    }
    if Complete(x) {
      assert !IsMissing(raw[0]) by { assert !IsMissing(x[0]); }
    }
  }

  /**
   * `preprocess_dataset` keeps a row exactly when its seven kept cells are
   * present and its timestamp parses: an unparseable timestamp drops the row.
   */
  lemma PreprocessTableKeepsParseableRows(columns: seq<string>, rows: seq<Row>, parse: Cell -> Option<Instant>, i: int)
    requires Shaped(columns, rows) && 0 <= i < |rows|
    requires forall k :: k in KeepCols ==> k in columns
    ensures PreprocessTable(columns, rows, parse).Success?
    ensures var j := IndexOf(columns, TimestampColumn);
      var c := rows[i][j];
      (ProjectRow(columns, ParseColumn(rows, j, parse)[i], KeepCols) in PreprocessTable(columns, rows, parse).value
       <==> Complete(ProjectRow(columns, rows[i], KeepCols)) && (c.Time? || parse(c).Some?))
  {
    assert KeepCols[0] == TimestampColumn;
    PreprocessTableRows(columns, rows, parse);
    ParsedRowComplete(columns, rows, parse, i);
    var j := IndexOf(columns, TimestampColumn);
    var parsed := ParseColumn(rows, j, parse);
    var x := ProjectRow(columns, parsed[i], KeepCols);
    var out := PreprocessTable(columns, rows, parse).value;
    var projected := Project(columns, parsed, KeepCols).value;
    assert projected[i] == x;
    assert multiset(projected)[x] > 0;
    assert x in out <==> multiset(out)[x] > 0;
  }

  /** After the parse, every surviving row's first cell is a parsed timestamp. */
  lemma ParsedTimesSurvive(columns: seq<string>, rows: seq<Row>, parse: Cell -> Option<Instant>)
    requires Shaped(columns, rows) && TimestampColumn in columns
    requires Shaped(columns, ParseColumn(rows, IndexOf(columns, TimestampColumn), parse))
    requires Preprocessed(columns, ParseColumn(rows, IndexOf(columns, TimestampColumn), parse)).Success?
    ensures forall x: Row :: x in Preprocessed(columns, ParseColumn(rows, IndexOf(columns, TimestampColumn), parse)).value ==> |x| > 0 && x[0].Time?
  {
    var j := IndexOf(columns, TimestampColumn);
    var parsed := ParseColumn(rows, j, parse);
    PreprocessedRows(columns, parsed);
    var out := Preprocessed(columns, parsed).value;
    forall x: Row | x in out ensures |x| > 0 && x[0].Time? {
      var i :| 0 <= i < |parsed| && x == ProjectRow(columns, parsed[i], KeepCols);
      ParsedFirstCell(columns, rows, parse, i);
    }
  }

  /** The first kept cell of a parsed row is its timestamp after `to_datetime`: a time or missing. */
  lemma ParsedFirstCell(columns: seq<string>, rows: seq<Row>, parse: Cell -> Option<Instant>, i: int)
    requires Shaped(columns, rows) && TimestampColumn in columns && 0 <= i < |rows|
    requires Shaped(columns, ParseColumn(rows, IndexOf(columns, TimestampColumn), parse))
    requires forall k :: k in KeepCols ==> k in columns
    ensures var x := ProjectRow(columns, ParseColumn(rows, IndexOf(columns, TimestampColumn), parse)[i], KeepCols);
      |x| > 0 && (x[0].Time? || IsMissing(x[0]))
  {
    var j := IndexOf(columns, TimestampColumn);
    var parsed := ParseColumn(rows, j, parse);
    var x := ProjectRow(columns, parsed[i], KeepCols);
    assert x[0] == parsed[i][j];
    assert x[0] == ToDatetime(rows[i][j], parse);
  }

  /**
   * `preprocess_dataset`: parses the timestamp column of `df` in place, then
   * returns a new frame holding the preprocessed rows under a fresh 0..n-1
   * index. A missing timestamp column raises before `df` is touched; a
   * missing kept column raises after the parse.
   */
  method PreprocessDataset(df: Frame, parse: Cell -> Option<Instant>) returns (r: Result<Frame, KeyError>)
    requires df.Valid()
    modifies df
    ensures df.Valid() && df.columns == old(df.columns) && df.index == old(df.index)
    ensures TimestampColumn !in df.columns ==> df.rows == old(df.rows)
    ensures TimestampColumn in df.columns ==> df.rows == ParseColumn(old(df.rows), IndexOf(df.columns, TimestampColumn), parse)
    ensures r.Failure? ==> PreprocessTable(df.columns, old(df.rows), parse) == Failure(r.error)
    ensures r.Success? ==>
      && PreprocessTable(df.columns, old(df.rows), parse) == Success(r.value.rows)
      && fresh(r.value) && r.value.Valid()
      && r.value.columns == KeepCols
      && r.value.index == Renumbered(|r.value.rows|)
  {
    if TimestampColumn !in df.columns {
      return Failure(KeyError([TimestampColumn]));
    }
    var j := IndexOf(df.columns, TimestampColumn);
    df.rows := ParseColumn(df.rows, j, parse);
    assert Shaped(df.columns, df.rows);
    var table := Preprocessed(df.columns, df.rows);
    if table.Failure? {
      return Failure(table.error);
    }
    PreprocessedRows(df.columns, df.rows);
    var out := table.value;
    assert Shaped(KeepCols, out) by {
      forall i | 0 <= i < |out| ensures |out[i]| == |KeepCols| {
        assert out[i] in out;
      }
    }
    var frame := new Frame(KeepCols, Renumbered(|out|), out);
    return Success(frame);
  }
}
