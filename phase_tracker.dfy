/** The spreadsheet helpers of the phase-tracker tool (run.py): Excel column
    letters and their zero-based indices, the column mapping and its range
    check, the "not started" status filter, the output column order, and
    the file name each tracer's company list is written under. */
module PhaseTracker {
  import opened Common
  import opened Text

  // ---------------------------------------------------------------------
  // Column letters (lines 21-29 and 151-159)

  predicate IsColumnLetter(c: char)
  {
    'A' <= c <= 'Z'
  }

  predicate AllLetters(s: string)
  {
    forall i :: 0 <= i < |s| ==> IsColumnLetter(s[i])
  }

  /** `re.fullmatch(r'[A-Z]+', s)`. */
  predicate IsColumnLetters(s: string)
  {
    s != [] && AllLetters(s)
  }

  /** A is 1 and Z is 26. */
  function Digit(c: char): int
  {
    c as int - 'A' as int + 1
  }

  /** The bijective base-26 value of a letter string, read left to right. */
  function ColumnValue(s: string): (v: nat)
    requires AllLetters(s)
    ensures s != [] ==> v >= 1
  {
    if s == [] then 0 else ColumnValue(s[..|s| - 1]) * 26 + Digit(s[|s| - 1])
  }

  /** The letter string of a bijective base-26 value; 0 has none. */
  function Letters(n: nat): (s: string)
    ensures AllLetters(s)
    ensures s == [] <==> n == 0
  {
    if n == 0 then [] else Letters((n - 1) / 26) + [((n - 1) % 26 + 'A' as int) as char]
  }

  /** `col_letter_to_index` as a value: the input is stripped and upper-cased,
      anything but one or more A-Z letters is an error (`ValueError`), and
      the index is one less than the bijective base-26 value. */
  function ColumnIndex(letter: string): Option<nat>
  {
    LettersIndex(Upper(Trim(letter)))
  }

  function LettersIndex(l: string): Option<nat>
  {
    if IsColumnLetters(l) then Some(ColumnValue(l) - 1) else None
  }

  /** `col_letter_to_index`: the accumulating loop. */
  method ColLetterToIndex(letter: string) returns (r: Option<nat>)
    ensures r == ColumnIndex(letter)
  {
    var l := Upper(Trim(letter));
    assert ColumnIndex(letter) == LettersIndex(l);
    if !IsColumnLetters(l) {
      return None;
    }
    var result := 0;
    for i := 0 to |l|
      invariant result == ColumnValue(l[..i])
    {
      assert l[..i + 1][..i] == l[..i];
      result := result * 26 + Digit(l[i]);
    }
    assert l[..|l|] == l;
    r := Some(result - 1);
  }

  /** The preview's header for column `i`: the `while n > 0` loop that peels
      off `divmod(n - 1, 26)`. */
  method ColumnName(i: nat) returns (s: string)
    ensures s == Letters(i + 1)
  {
    var n: nat := i + 1;
    s := [];
    while n > 0
      invariant Letters(n) + s == Letters(i + 1)
      decreases n
    {
      var q, rem := (n - 1) / 26, (n - 1) % 26;
      assert Letters(n) == Letters(q) + [(rem + 'A' as int) as char];
      s := [(rem + 'A' as int) as char] + s;
      n := q;
    }
  }

  lemma {:induction false} ValueOfLetters(n: nat)
    ensures ColumnValue(Letters(n)) == n
  {
    if n > 0 {
      var l := Letters(n);
      var init := Letters((n - 1) / 26);
      ValueOfLetters((n - 1) / 26);
      assert l[..|l| - 1] == init;
    }
  }

  lemma {:induction false} LettersOfValue(s: string)
    requires AllLetters(s)
    ensures Letters(ColumnValue(s)) == s
  {
    if s != [] {
      var init, c := s[..|s| - 1], s[|s| - 1];
      LettersOfValue(init);
      assert ColumnValue(s) == ColumnValue(init) * 26 + Digit(c);
      LettersSnoc(ColumnValue(init), c);
      SplitLast(s);
    }
  }

  /** One more letter at the end: the value grows by one base-26 digit. */
  lemma LettersSnoc(q: nat, c: char)
    requires IsColumnLetter(c)
    ensures Letters(q * 26 + Digit(c)) == Letters(q) + [c]
  {
    DivModDigit(q, Digit(c) - 1);
  }

  lemma DivModDigit(q: nat, d: int)
    requires 0 <= d < 26
    ensures (q * 26 + d) / 26 == q && (q * 26 + d) % 26 == d
  {
  }

  /** Letters that are already upper case and unpadded pass through the
      strip and the upper-casing unchanged. */
  lemma CleanLetters(s: string)
    requires IsColumnLetters(s)
    ensures Upper(Trim(s)) == s
    ensures ColumnIndex(s) == LettersIndex(s)
  {
    TrimNoop(s);
    UpperNoop(s);
  }

  /** The preview's header for column i reads back as index i. */
  lemma IndexRoundTrip(i: nat)
    ensures ColumnIndex(Letters(i + 1)) == Some(i)
  {
    CleanLetters(Letters(i + 1));
    ValueOfLetters(i + 1);
  }

  /** A valid column reference reads as an index whose header is the
      reference, stripped and upper-cased. */
  lemma LettersRoundTrip(letter: string)
    requires ColumnIndex(letter).Some?
    ensures Letters(ColumnIndex(letter).value + 1) == Upper(Trim(letter))
  {
    LettersIndexRoundTrip(Upper(Trim(letter)));
  }

  lemma LettersIndexRoundTrip(l: string)
    requires LettersIndex(l).Some?
    ensures Letters(LettersIndex(l).value + 1) == l
  {
    LettersOfValue(l);
  }

  /** A reads as 0, Z as 25 and AA as 26. */
  lemma ColumnIndexExamples()
    ensures ColumnIndex("A") == Some(0) && ColumnIndex("Z") == Some(25) && ColumnIndex("AA") == Some(26)
  {
    SingleLetterIndex('A');
    SingleLetterIndex('Z');
    TwoLetterIndex('A', 'A');
  }

  lemma TwoLetterIndex(c: char, d: char)
    requires IsColumnLetter(c) && IsColumnLetter(d)
    ensures ColumnIndex([c, d]) == Some(Digit(c) * 26 + Digit(d) - 1)
  {
    var s := [c, d];
    CleanLetters(s);
    assert s[..1] == [c] && [c][..0] == [];
    assert ColumnValue([c]) == Digit(c);
    assert ColumnValue(s) == ColumnValue([c]) * 26 + Digit(d);
  }

  lemma SingleLetterValue(c: char)
    requires IsColumnLetter(c)
    ensures LettersIndex([c]) == Some(c as int - 'A' as int)
  {
    var s := [c];
    assert s[..0] == [] && s[0] == c;
    assert AllLetters(s);
    assert ColumnValue(s) == ColumnValue([]) * 26 + Digit(c);
    assert ColumnValue(s) == Digit(c);
  }

  lemma SingleLetterIndex(c: char)
    requires IsColumnLetter(c)
    ensures ColumnIndex([c]) == Some(c as int - 'A' as int)
  {
    CleanLetters([c]);
    SingleLetterValue(c);
  }

  // ---------------------------------------------------------------------
  // The column mapping (lines 8-15 and 179-205)

  /** The default columns of uif_ref, tradename, email, alt_email, tracer and status. */
  const DefaultMapping: seq<string> := ["A", "B", "C", "X", "K", "Q"]

  /** `entry.strip() or default`. */
  function Chosen(entry: string, default: string): string
  {
    if Trim(entry) == [] then default else Trim(entry)
  }

  /** The column each entry field names: the field, or its default when blank. */
  function FieldIndex(entries: seq<string>, defaults: seq<string>, k: int): Option<nat>
    requires 0 <= k < |entries| <= |defaults|
  {
    ColumnIndex(Chosen(entries[k], defaults[k]))
  }

  /** The mapping of the entry fields (called with `DefaultMapping` as the
      defaults): every field through `col_letter_to_index`; one invalid field
      rejects the whole mapping. */
  method ResolveMapping(entries: seq<string>, defaults: seq<string>) returns (r: Option<seq<nat>>)
    requires |entries| == |defaults|
    ensures r.None? <==> exists k :: 0 <= k < |entries| && FieldIndex(entries, defaults, k).None?
    ensures r.Some? ==>
      |r.value| == |entries| && forall k :: 0 <= k < |entries| ==> FieldIndex(entries, defaults, k) == Some(r.value[k])
  {
    var indices: seq<nat> := [];
    for k := 0 to |entries|
      invariant |indices| == k
      invariant forall j :: 0 <= j < k ==> FieldIndex(entries, defaults, j) == Some(indices[j])
    {
      var index := FieldColumn(entries, defaults, k);
      if index.None? {
        assert FieldIndex(entries, defaults, k).None?;
        return None;
      }
      ResolveStep(entries, defaults, indices, index.value);
      indices := indices + [index.value];
    }
    r := Some(indices);
    assert forall k :: 0 <= k < |entries| ==> FieldIndex(entries, defaults, k).Some?;
  }

  lemma ResolveStep(entries: seq<string>, defaults: seq<string>, indices: seq<nat>, v: nat)
    requires |indices| < |entries| <= |defaults|
    requires forall j :: 0 <= j < |indices| ==> FieldIndex(entries, defaults, j) == Some(indices[j])
    requires FieldIndex(entries, defaults, |indices|) == Some(v)
    ensures forall j :: 0 <= j <= |indices| ==> FieldIndex(entries, defaults, j) == Some((indices + [v])[j])
  {
  }

  /** One field of the mapping through `col_letter_to_index`. */
  method FieldColumn(entries: seq<string>, defaults: seq<string>, k: int) returns (index: Option<nat>)
    requires 0 <= k < |entries| <= |defaults|
    ensures index == FieldIndex(entries, defaults, k)
  {
    index := ColLetterToIndex(Chosen(entries[k], defaults[k]));
  }

  /** Six blank (empty or whitespace-only) fields give columns A, B, C, X, K and Q. */
  lemma DefaultMappingIndices(entries: seq<string>)
    requires |entries| == 6 && forall k :: 0 <= k < 6 ==> Trim(entries[k]) == []
    ensures FieldIndex(entries, DefaultMapping, 0) == Some(0) && FieldIndex(entries, DefaultMapping, 1) == Some(1)
      && FieldIndex(entries, DefaultMapping, 2) == Some(2) && FieldIndex(entries, DefaultMapping, 3) == Some(23)
      && FieldIndex(entries, DefaultMapping, 4) == Some(10) && FieldIndex(entries, DefaultMapping, 5) == Some(16)
  {
    BlankFieldIsDefault(entries, DefaultMapping, 0, 'A');
    BlankFieldIsDefault(entries, DefaultMapping, 1, 'B');
    BlankFieldIsDefault(entries, DefaultMapping, 2, 'C');
    BlankFieldIsDefault(entries, DefaultMapping, 3, 'X');
    BlankFieldIsDefault(entries, DefaultMapping, 4, 'K');
    BlankFieldIsDefault(entries, DefaultMapping, 5, 'Q');
  }

  /** A blank field whose default is one letter names that letter's column. */
  lemma BlankFieldIsDefault(entries: seq<string>, defaults: seq<string>, k: int, c: char)
    requires 0 <= k < |entries| <= |defaults| && Trim(entries[k]) == [] && defaults[k] == [c] && IsColumnLetter(c)
    ensures FieldIndex(entries, defaults, k) == Some(c as int - 'A' as int)
  {
    SingleLetterIndex(c);
  }

  /** `max(needed_idxs)`. */
  function MaxIndex(indices: seq<nat>): (m: nat)
    requires indices != []
    ensures forall k :: 0 <= k < |indices| ==> indices[k] <= m
    ensures exists k :: 0 <= k < |indices| && indices[k] == m
  {
    if |indices| == 1 then indices[0]
    else
      var rest := MaxIndex(indices[1..]);
      assert forall k :: 1 <= k < |indices| ==> indices[k] == indices[1..][k - 1];
      if indices[0] >= rest then indices[0] else rest
  }

  /** Generation goes on only when the largest mapped index is inside the sheet. */
  predicate ColumnsInRange(indices: seq<nat>, width: nat)
    requires indices != []
  {
    !(MaxIndex(indices) >= width)
  }

  /** The range check passes exactly when every mapped column exists. */
  lemma ColumnsInRangeIff(indices: seq<nat>, width: nat)
    requires indices != []
    ensures ColumnsInRange(indices, width) <==> forall k :: 0 <= k < |indices| ==> indices[k] < width
  {
  }

  // ---------------------------------------------------------------------
  // The status filter (lines 207-209)

  /** The status test in one pass: stripped and lower-cased, the text starts
      with "not", ends with "started", and what lies between strips to
      nothing, '_' or '-'. */
  predicate IsNotStarted(s: string)
  {
    var t := Lower(Trim(s));
    |t| >= 10 && t[..3] == "not" && t[|t| - 7..] == "started"
    && (Trim(t[3..|t| - 7]) == "" || Trim(t[3..|t| - 7]) == "_" || Trim(t[3..|t| - 7]) == "-")
  }

  /** What may stand between "not" and "started": whitespace, with at most
      one '_', ' ' or '-' inside it. */
  predicate IsGap(m: string)
  {
    AllSpace(m) || exists k :: 0 <= k < |m| && SeparatorAt(m, k)
  }

  predicate SeparatorAt(m: string, k: int)
  {
    0 <= k < |m| && (m[k] == '_' || m[k] == '-') && AllSpace(m[..k]) && AllSpace(m[k + 1..])
  }

  /** The regular expression `^\s*not\s*[_ -]?\s*started\s*$`, ignoring case,
      split at the positions p of "not" and q of "started". */
  predicate MatchesAt(s: string, p: int, q: int)
  {
    0 <= p && p + 3 <= q && q + 7 <= |s|
    && AllSpace(s[..p]) && Lower(s[p..p + 3]) == "not" && IsGap(s[p + 3..q])
    && Lower(s[q..q + 7]) == "started" && AllSpace(s[q + 7..])
  }

  ghost predicate MatchesStatusPattern(s: string)
  {
    exists p, q :: MatchesAt(s, p, q)
  }

  /** The one-pass test accepts exactly the strings the pattern matches. */
  lemma StatusFilterIff(s: string)
    ensures IsNotStarted(s) <==> MatchesStatusPattern(s)
  {
    if IsNotStarted(s) {
      NotStartedMatches(s);
    }
    if MatchesStatusPattern(s) {
      var p, q :| MatchesAt(s, p, q);
      MatchesAreNotStarted(s, p, q);
    }
  }

  lemma NotStartedMatches(s: string)
    requires IsNotStarted(s)
    ensures MatchesStatusPattern(s)
  {
    var t := Trim(s);
    var a := TrimSlice(s);
    var n := |t|;
    LowerSlice(t, 3, n - 7);
    GapFromTrim(t[3..n - 7]);
    MatchesFromStripped(s, t, a);
  }

  /** A slice of `s` with only whitespace around it, reading "not", a gap and
      "started" once lower-cased, is a match of the pattern. */
  lemma MatchesFromStripped(s: string, t: string, a: int)
    requires 0 <= a && a + |t| <= |s| && t == s[a..a + |t|]
    requires AllSpace(s[..a]) && AllSpace(s[a + |t|..])
    requires |t| >= 10 && Lower(t)[..3] == "not" && Lower(t)[|t| - 7..] == "started"
    requires IsGap(t[3..|t| - 7])
    ensures MatchesAt(s, a, a + |t| - 7)
  {
    var n := |t|;
    WindowLower(s, t, a, 0, 3);
    SliceOfSlice(s, t, a, 3, n - 7);
    WindowLower(s, t, a, n - 7, n);
  }

  /** Lower-casing a window of a slice `t` of `s` lower-cases the matching
      window of `s`. */
  lemma WindowLower(s: string, t: string, a: int, i: int, j: int)
    requires 0 <= a && a + |t| <= |s| && t == s[a..a + |t|]
    requires 0 <= i <= j <= |t|
    ensures Lower(s[a + i..a + j]) == Lower(t)[i..j]
  {
    SliceOfSlice(s, t, a, i, j);
    LowerSlice(t, i, j);
  }

  lemma MatchesAreNotStarted(s: string, p: int, q: int)
    requires MatchesAt(s, p, q)
    ensures IsNotStarted(s)
  {
    var x := s[p..q + 7];
    StrippedMatch(s, p, q);
    LoweredMatch(s, p, q);
    TrimOfGap(s[p + 3..q]);
    var l := Lower(x);
    assert l[3..|l| - 7] == Lower(s[p + 3..q]);
  }

  /** Stripping a match leaves the text from "not" to "started". */
  lemma StrippedMatch(s: string, p: int, q: int)
    requires MatchesAt(s, p, q)
    ensures Trim(s) == s[p..q + 7]
  {
    var x := s[p..q + 7];
    var n := |x|;
    assert s == s[..p] + x + s[q + 7..];
    WindowLower(s, x, p, 0, 3);
    WindowLower(s, x, p, n - 7, n);
    WordEndsAreNotSpace(x[..3], "not");
    WordEndsAreNotSpace(x[n - 7..], "started");
    assert x[0] == x[..3][0] && x[n - 1] == x[n - 7..][6];
    TrimPadded(s[..p], x, s[q + 7..]);
  }

  /** Lower-cased, the text from "not" to "started" of a match reads "not",
      the lower-cased gap, then "started". */
  lemma LoweredMatch(s: string, p: int, q: int)
    requires MatchesAt(s, p, q)
    ensures var l := Lower(s[p..q + 7]);
      |l| >= 10 && l[..3] == "not" && l[|l| - 7..] == "started" && l[3..|l| - 7] == Lower(s[p + 3..q])
  {
    var x := s[p..q + 7];
    var n := |x|;
    WindowLower(s, x, p, 0, 3);
    WindowLower(s, x, p, 3, n - 7);
    WindowLower(s, x, p, n - 7, n);
  }

  /** A slice of a slice is a slice of the original. */
  lemma SliceOfSlice(s: string, t: string, a: int, i: int, j: int)
    requires 0 <= a && a + |t| <= |s| && t == s[a..a + |t|]
    requires 0 <= i <= j <= |t|
    ensures t[i..j] == s[a + i..a + j]
  {
    assert forall k :: 0 <= k < j - i ==> t[i..j][k] == t[i + k] == s[a + i + k];
  }

  lemma LowerSlice(x: string, i: int, j: int)
    requires 0 <= i <= j <= |x|
    ensures Lower(x)[i..j] == Lower(x[i..j])
  {
  }

  /** A string that lower-cases to a word of letters starts and ends with a
      letter. */
  lemma WordEndsAreNotSpace(x: string, w: string)
    requires Lower(x) == w && w != [] && 'a' <= w[0] <= 'z' && 'a' <= w[|w| - 1] <= 'z'
    ensures !IsSpace(x[0]) && !IsSpace(x[|x| - 1])
  {
    assert LowerChar(x[0]) == w[0] && LowerChar(x[|x| - 1]) == w[|w| - 1];
  }

  /** A gap whose lower-cased, stripped text is "", "_" or "-" is whitespace
      around at most one separator. */
  lemma GapFromTrim(m: string)
    requires Trim(Lower(m)) == "" || Trim(Lower(m)) == "_" || Trim(Lower(m)) == "-"
    ensures IsGap(m)
  {
    TrimLower(m);
    var tm := Trim(m);
    if tm == [] {
      TrimEmptyIsAllSpace(m);
    } else {
      assert |tm| == 1;
      assert LowerChar(tm[0]) == Lower(tm)[0];
      var b := TrimSlice(m);
      assert m[b] == m[b..b + 1][0] == tm[0];
      assert SeparatorAt(m, b);
    }
  }

  /** A gap of the pattern lower-cases and strips to "", "_" or "-". */
  lemma TrimOfGap(m: string)
    requires IsGap(m)
    ensures Trim(Lower(m)) == "" || Trim(Lower(m)) == "_" || Trim(Lower(m)) == "-"
  {
    StrippedGap(m);
    TrimLower(m);
    var tm := Trim(m);
    assert Lower(tm) == tm by {
      assert forall i :: 0 <= i < |tm| ==> LowerChar(tm[i]) == tm[i];
    }
  }

  /** A gap strips to "", "_" or "-". */
  lemma StrippedGap(m: string)
    requires IsGap(m)
    ensures Trim(m) == "" || Trim(m) == "_" || Trim(m) == "-"
  {
    if AllSpace(m) {
      TrimAllSpace(m);
    } else {
      var k :| 0 <= k < |m| && SeparatorAt(m, k);
      assert m == m[..k] + [m[k]] + m[k + 1..];
      TrimPadded(m[..k], [m[k]], m[k + 1..]);
    }
  }

  /** `astype(str)` on a cell: an empty cell becomes the text "nan". */
  function CellText(c: Cell): string
  {
    match c
    case Blank => "nan"
    case Str(s) => s
  }

  /** The rows generation keeps: those whose status cell, as text, is "not started". */
  function NotStartedRows(rows: seq<seq<Cell>>, status: nat): seq<seq<Cell>>
  {
    Filter(rows, (r: seq<Cell>) => status < |r| && IsNotStarted(CellText(r[status])))
  }

  /** The filter keeps, in their order, exactly the rows whose status text
      the pattern matches; an empty status cell reads "nan" and is dropped. */
  lemma NotStartedRowsKept(rows: seq<seq<Cell>>, status: nat)
    ensures SubsequenceOf(NotStartedRows(rows, status), rows)
    ensures forall r :: r in NotStartedRows(rows, status) <==>
      r in rows && status < |r| && MatchesStatusPattern(CellText(r[status]))
    ensures forall r :: r in rows && status < |r| && r[status] == Blank ==> r !in NotStartedRows(rows, status)
  {
    FilterIsSubsequence(rows, (r: seq<Cell>) => status < |r| && IsNotStarted(CellText(r[status])));
    forall r | r in rows && status < |r|
      ensures IsNotStarted(CellText(r[status])) <==> MatchesStatusPattern(CellText(r[status]))
    {
      StatusFilterIff(CellText(r[status]));
    }
    var nan := "nan";
    assert !IsNotStarted(nan) by {
      assert nan[0] == 'n' && nan[2] == 'n';
      TrimNoop(nan);
      assert |Lower(Trim(nan))| == 3;
    }
  }

  // ---------------------------------------------------------------------
  // Output columns (lines 211-243)

  const KnownColumns: seq<string> := ["UIF Reference Number", "Tradename", "Email Address", "Alternative Email"]

  predicate IsKnownColumn(h: string)
  {
    h in KnownColumns
  }

  function NotIn(front: seq<string>): string -> bool
  {
    (c: string) => c !in front
  }

  /** The template headers, each cleaned by `clean`, that name a column of
      `known`, in template order (`final_order` cleans with `strip` and
      passes the known columns). */
  function TemplateKnown(template: seq<string>, known: seq<string>, clean: string -> string): (r: seq<string>)
    ensures forall h :: h in r ==> h in known
  {
    if template == [] then []
    else
      var h := clean(template[|template| - 1]);
      TemplateKnown(template[..|template| - 1], known, clean) + (if h in known then [h] else [])
  }

  /** A header is among the template's known headers exactly when it is a
      known column and some template header cleans to it. */
  lemma TemplateKnownIff(template: seq<string>, known: seq<string>, clean: string -> string, x: string)
    ensures x in TemplateKnown(template, known, clean)
        <==> x in known && exists k :: 0 <= k < |template| && clean(template[k]) == x
  {
    if x in TemplateKnown(template, known, clean) {
      TemplateKnownFrom(template, known, clean, x);
    }
    if x in known && exists k :: 0 <= k < |template| && clean(template[k]) == x {
      var k :| 0 <= k < |template| && clean(template[k]) == x;
      TemplateKnownTo(template, known, clean, k);
    }
  }

  lemma {:induction false} TemplateKnownFrom(template: seq<string>, known: seq<string>, clean: string -> string, x: string)
    requires x in TemplateKnown(template, known, clean)
    ensures exists k :: 0 <= k < |template| && clean(template[k]) == x
  {
    var init := template[..|template| - 1];
    if x in TemplateKnown(init, known, clean) {
      TemplateKnownFrom(init, known, clean, x);
      var k :| 0 <= k < |init| && clean(init[k]) == x;
      assert template[k] == init[k];
    } else {
      assert clean(template[|template| - 1]) == x;
    }
  }

  lemma {:induction false} TemplateKnownTo(template: seq<string>, known: seq<string>, clean: string -> string, k: int)
    requires 0 <= k < |template| && clean(template[k]) in known
    ensures clean(template[k]) in TemplateKnown(template, known, clean)
  {
    var init := template[..|template| - 1];
    if k < |init| {
      assert init[k] == template[k];
      TemplateKnownTo(init, known, clean, k);
    }
  }

  lemma KnownColumnsDistinct()
    ensures forall i, j :: 0 <= i < j < |KnownColumns| ==> KnownColumns[i] != KnownColumns[j]
  {
    assert KnownColumns[0][0] == 'U' && KnownColumns[1][0] == 'T';
    assert KnownColumns[2][0] == 'E' && KnownColumns[3][0] == 'A';
  }

  /** The column order of every output file: the template's known headers
      first, then the known columns the template lacks; without a readable
      template, the known columns in their own order. */
  function FinalOrderSpec(template: Option<seq<string>>): seq<string>
  {
    if template.None? then KnownColumns
    else
      var front := TemplateKnown(template.value, KnownColumns, Trim);
      front + Filter(KnownColumns, NotIn(front))
  }

  /** `final_order`: the two appending loops. */
  method FinalOrder(template: Option<seq<string>>) returns (order: seq<string>)
    ensures order == FinalOrderSpec(template)
  {
    if template.None? {
      return KnownColumns;
    }
    var headers := template.value;
    order := [];
    for k := 0 to |headers|
      invariant order == TemplateKnown(headers[..k], KnownColumns, Trim)
    {
      var h := Trim(headers[k]);
      assert headers[..k + 1][..k] == headers[..k];
      if h in KnownColumns {
        order := order + [h];
      }
    }
    assert headers[..|headers|] == headers;
    KnownColumnsDistinct();
    order := AppendMissing(order, KnownColumns);
  }

  /** The second loop of `final_order`: each column not yet in the order is
      appended, once. */
  method AppendMissing(front: seq<string>, columns: seq<string>) returns (order: seq<string>)
    requires forall i, j :: 0 <= i < j < |columns| ==> columns[i] != columns[j]
    ensures order == front + Filter(columns, NotIn(front))
  {
    order := front;
    for k := 0 to |columns|
      invariant order == front + Filter(columns[..k], NotIn(front))
    {
      var c := columns[k];
      MissingStep(front, columns, k);
      if c !in order {
        order := order + [c];
      }
    }
    assert columns[..|columns|] == columns;
  }

  /** One step of the second loop: a column is already in the order exactly
      when the front holds it, since the columns are distinct. */
  lemma MissingStep(front: seq<string>, columns: seq<string>, k: int)
    requires forall i, j :: 0 <= i < j < |columns| ==> columns[i] != columns[j]
    requires 0 <= k < |columns|
    ensures var c, before := columns[k], front + Filter(columns[..k], NotIn(front));
      (c in before <==> c in front)
      && front + Filter(columns[..k + 1], NotIn(front)) == before + (if c in front then [] else [c])
  {
    FilterStep(columns, k, NotIn(front));
    assert columns[k] !in columns[..k];
  }

  /** Every known column appears, nothing else does, and the template's
      known headers come first and in template order. */
  lemma FinalOrderSpecProperties(template: Option<seq<string>>)
    ensures forall c :: c in KnownColumns ==> c in FinalOrderSpec(template)
    ensures forall c :: c in FinalOrderSpec(template) ==> c in KnownColumns
    ensures template.Some? ==> TemplateKnown(template.value, KnownColumns, Trim) <= FinalOrderSpec(template)
  {
  }

  /** A template repeating a known header repeats that column. */
  lemma RepeatedHeaderRepeats(h: string)
    requires h in KnownColumns
    ensures [h, h] <= FinalOrderSpec(Some([h, h]))
  {
    KnownColumnUnpadded(h);
    RepeatedUnpaddedHeader(h);
  }

  lemma RepeatedUnpaddedHeader(h: string)
    requires IsKnownColumn(h) && Trim(h) == h
    ensures [h, h] <= FinalOrderSpec(Some([h, h]))
  {
    TemplateKnownPair(h, KnownColumns, Trim);
  }

  /** A template of the same clean known header twice keeps it twice. */
  lemma TemplateKnownPair(h: string, known: seq<string>, clean: string -> string)
    requires h in known && clean(h) == h
    ensures TemplateKnown([h, h], known, clean) == [h, h]
  {
    var t := [h, h];
    assert t[..1] == [h] && t[..1][..0] == [];
    assert TemplateKnown(t[..1], known, clean) == [h];
  }

  /** No known column name has whitespace at either end. */
  lemma KnownColumnUnpadded(c: string)
    requires c in KnownColumns
    ensures Trim(c) == c
  {
    var u, t, e, a := KnownColumns[0], KnownColumns[1], KnownColumns[2], KnownColumns[3];
    assert u[0] == 'U' && u[|u| - 1] == 'r';
    assert t[0] == 'T' && t[|t| - 1] == 'e';
    assert e[0] == 'E' && e[|e| - 1] == 's';
    assert a[0] == 'A' && a[|a| - 1] == 'l';
    assert c == u || c == t || c == e || c == a;
    TrimNoop(c);
  }

  // ---------------------------------------------------------------------
  // Output rows and file names (lines 32-42 and 211-253)

  /** The five extracted values of one kept row. */
  datatype OutputRow = OutputRow(uifRef: string, tradeName: string, email: string, altEmail: string, tracer: string)

  /** A cell of the uif_ref, tradename, email or tracer column as written:
      `astype(str).fillna("")`, where the conversion has already turned an
      empty cell into "nan" so the fill never applies. */
  function OutputTextAsWritten(c: Cell): string
  {
    CellText(c)
  }

  /** The same cell as the alt_email column treats it (`where(notna, "")`):
      an empty cell becomes "". */
  function OutputText(c: Cell): string
  {
    match c
    case Blank => ""
    case Str(s) => s
  }

  /** The column positions of uif_ref, tradename, email, alt_email and tracer
      (the mapping without status). */
  predicate CoversRow(indices: seq<nat>, row: seq<Cell>)
  {
    |indices| >= 5 && forall k :: 0 <= k < 5 ==> indices[k] < |row|
  }

  function OutputRowFor(text: Cell -> string, indices: seq<nat>, row: seq<Cell>): (o: OutputRow)
    requires CoversRow(indices, row)
  {
    OutputRow(text(row[indices[0]]), text(row[indices[1]]), text(row[indices[2]]),
              OutputText(row[indices[3]]), text(row[indices[4]]))
  }

  /** As written, an empty email cell is listed as "nan" and an empty tracer
      cell groups under "nan"; as intended, both are empty, like an empty
      alt_email cell. */
  lemma EmptyCellsReadAsNan(row: seq<Cell>, indices: seq<nat>)
    requires CoversRow(indices, row) && row[indices[2]] == Blank && row[indices[4]] == Blank
    ensures OutputRowFor(OutputTextAsWritten, indices, row).email == "nan"
    ensures OutputRowFor(OutputTextAsWritten, indices, row).tracer == "nan"
    ensures OutputRowFor(OutputText, indices, row).email == ""
    ensures OutputRowFor(OutputText, indices, row).tracer == ""
  {
  }

  predicate IsForbidden(c: char)
  {
    c == '\\' || c == '/' || c == ':' || c == '"' || c == '*' || c == '?' || c == '<' || c == '>' || c == '|'
  }

  predicate NoForbidden(s: string)
  {
    forall i :: 0 <= i < |s| ==> !IsForbidden(s[i])
  }

  /** Drops the leading forbidden characters. */
  function DropForbidden(s: string): (r: string)
    ensures |r| <= |s|
    ensures r == [] || !IsForbidden(r[0])
  {
    if s != [] && IsForbidden(s[0]) then DropForbidden(s[1..]) else s
  }

  /** `re.sub(r'[\\/:"*?<>|]+', "_", s)`. */
  function ReplaceForbiddenRuns(s: string): (r: string)
    ensures NoForbidden(r)
    ensures NoForbidden(s) ==> r == s
    decreases |s|
  {
    if s == [] then []
    else if !IsForbidden(s[0]) then
      assert NoForbidden(s) ==> NoForbidden(s[1..]) by {
        assert forall i :: 0 <= i < |s[1..]| ==> s[1..][i] == s[i + 1];
      }
      [s[0]] + ReplaceForbiddenRuns(s[1..])
    else "_" + ReplaceForbiddenRuns(DropForbidden(s[1..]))
  }

  predicate AllForbidden(s: string)
  {
    forall i :: 0 <= i < |s| ==> IsForbidden(s[i])
  }

  /** Dropping the leading forbidden characters of a run followed by an
      allowed character (or nothing) leaves exactly what follows the run. */
  lemma {:induction false} DropForbiddenRun(g: string, s: string)
    requires AllForbidden(g) && (s == [] || !IsForbidden(s[0]))
    ensures DropForbidden(g + s) == s
  {
    if g == [] {
      assert g + s == s;
    } else {
      assert (g + s)[1..] == g[1..] + s;
      DropForbiddenRun(g[1..], s);
    }
  }

  /** A whole run of forbidden characters, up to the next allowed character
      or the end, becomes one '_'. Together with
      `ReplaceForbiddenRunsKeepsAllowed` this fixes the result of every
      input, which splits into allowed characters and maximal runs. */
  lemma ReplaceForbiddenRunsSplit(g: string, s: string)
    requires g != [] && AllForbidden(g) && (s == [] || !IsForbidden(s[0]))
    ensures ReplaceForbiddenRuns(g + s) == "_" + ReplaceForbiddenRuns(s)
  {
    assert (g + s)[0] == g[0] && (g + s)[1..] == g[1..] + s;
    DropForbiddenRun(g[1..], s);
  }

  /** Allowed characters are kept as they are, wherever they stand. */
  lemma {:induction false} ReplaceForbiddenRunsKeepsAllowed(w: string, s: string)
    requires NoForbidden(w)
    ensures ReplaceForbiddenRuns(w + s) == w + ReplaceForbiddenRuns(s)
  {
    if w == [] {
      assert w + s == s;
    } else {
      ReplaceForbiddenRunsCons(w, s);
      ReplaceForbiddenRunsKeepsAllowed(w[1..], s);
    }
  }

  /** The first character of a clean text is kept. */
  lemma ReplaceForbiddenRunsCons(w: string, s: string)
    requires w != [] && NoForbidden(w)
    ensures NoForbidden(w[1..])
    ensures ReplaceForbiddenRuns(w + s) == [w[0]] + ReplaceForbiddenRuns(w[1..] + s)
    ensures w == [w[0]] + w[1..]
  {
    var v := w[1..];
    assert forall i :: 0 <= i < |v| ==> v[i] == w[i + 1];
    assert (w + s)[0] == w[0] && (w + s)[1..] == v + s;
  }

  /** `sanitize_filename`; the NFKD normalisation is the identity on the
      ASCII text modelled here. */
  function SanitizeFilename(name: Option<string>): string
  {
    var n := if name.None? then "Unknown" else name.value;
    var t := Trim(ReplaceForbiddenRuns(n));
    if t == [] then "Unknown" else t
  }

  lemma UnknownIsClean()
    ensures NoForbidden("Unknown") && !IsSpace("Unknown"[0]) && !IsSpace("Unknown"[6])
  {
  }

  /** A sanitised name is never empty, holds no character Windows forbids in
      file names, and has no whitespace at either end. */
  lemma SanitizedIsSafe(name: Option<string>)
    ensures SanitizeFilename(name) != []
    ensures NoForbidden(SanitizeFilename(name))
    ensures !IsSpace(SanitizeFilename(name)[0]) && !IsSpace(SanitizeFilename(name)[|SanitizeFilename(name)| - 1])
    ensures name.None? ==> SanitizeFilename(name) == "Unknown"
  {
    UnknownIsClean();
    var n := if name.None? then "Unknown" else name.value;
    var s := ReplaceForbiddenRuns(n);
    var a := TrimSlice(s);
    var t := Trim(s);
    assert forall i :: 0 <= i < |t| ==> t[i] == s[a + i];
  }

  /** Sanitising a sanitised name changes nothing. */
  lemma SanitizeIdempotent(name: Option<string>)
    ensures SanitizeFilename(Some(SanitizeFilename(name))) == SanitizeFilename(name)
  {
    var r := SanitizeFilename(name);
    SanitizedIsSafe(name);
    TrimPadded([], r, []);
    assert [] + r + [] == r;
  }

  /** A name that is already safe (non-empty, no forbidden character, no
      whitespace at either end) is kept as it is. */
  lemma SanitizeKeepsSafeName(n: string)
    requires n != [] && NoForbidden(n) && !IsSpace(n[0]) && !IsSpace(n[|n| - 1])
    ensures SanitizeFilename(Some(n)) == n
  {
    TrimNoop(n);
  }

  /** Two safe names joined by a run of forbidden characters come out joined
      by one '_'. */
  lemma SanitizeJoinsNames(a: string, g: string, b: string)
    requires a != [] && NoForbidden(a) && !IsSpace(a[0]) && !IsSpace(a[|a| - 1])
    requires b != [] && NoForbidden(b) && !IsSpace(b[0]) && !IsSpace(b[|b| - 1])
    requires g != [] && AllForbidden(g)
    ensures SanitizeFilename(Some(a + g + b)) == a + "_" + b
  {
    assert a + g + b == a + (g + b);
    ReplaceForbiddenRunsSplit(g, b);
    ReplaceForbiddenRunsKeepsAllowed(a, g + b);
    var r := a + "_" + b;
    assert ReplaceForbiddenRuns(a + g + b) == r;
    assert r[0] == a[0] && r[|r| - 1] == b[|b| - 1];
    TrimNoop(r);
  }

  /** "Jane/Doe" is written as "Jane_Doe". */
  lemma SanitizeExample(a: string, g: string, b: string)
    requires a == "Jane" && g == "/" && b == "Doe"
    ensures SanitizeFilename(Some(a + g + b)) == "Jane_Doe"
  {
    SanitizeJoinsNames(a, g, b);
  }

  /** `tracer_name` as written: the grouped value is always a string (the
      column went through `astype(str)`), so only blank text becomes "Unknown". */
  function TracerNameAsWritten(c: Cell): string
  {
    var t := OutputTextAsWritten(c);
    if Trim(t) != [] then t else "Unknown"
  }

  /** `tracer_name` as intended: an empty or blank tracer becomes "Unknown". */
  function TracerName(c: Cell): string
  {
    var t := OutputText(c);
    if Trim(t) != [] then t else "Unknown"
  }

  const CompanyListSuffix: string := " - Company List.xlsx"

  /** The name of the file a tracer's list is written to. */
  function TracerFileName(c: Cell): string
  {
    SanitizeFilename(Some(TracerName(c))) + CompanyListSuffix
  }

  /** As written, an empty tracer cell is named "nan" and the rows with it go
      to "nan - Company List.xlsx"; as intended it is named "Unknown". */
  lemma EmptyTracerFileAsWritten()
    ensures TracerNameAsWritten(Blank) == "nan"
    ensures TracerName(Blank) == "Unknown"
  {
    var nan := "nan";
    assert nan[0] == 'n' && nan[2] == 'n';
    TrimNoop(nan);
    assert Trim("") == [];
  }

  /** An empty or blank tracer cell writes "Unknown - Company List.xlsx". */
  lemma BlankTracerFile(c: Cell)
    requires c.Blank? || AllSpace(c.s)
    ensures TracerFileName(c) == "Unknown" + CompanyListSuffix
  {
    if c.Str? {
      TrimAllSpace(c.s);
    }
    assert TracerName(c) == "Unknown";
    SanitizeUnknown();
  }

  /** "Unknown" is already a safe file name. */
  lemma SanitizeUnknown()
    ensures SanitizeFilename(Some("Unknown")) == "Unknown"
  {
    UnknownIsClean();
    var u := "Unknown";
    assert ReplaceForbiddenRuns(u) == u;
    TrimNoop(u);
  }

  /** The file of a tracer is named by a non-empty name without forbidden
      characters or outer whitespace, followed by the list suffix. */
  lemma TracerFileNameIsSafe(c: Cell)
    ensures var name := SanitizeFilename(Some(TracerName(c)));
      && TracerFileName(c) == name + CompanyListSuffix
      && name != [] && NoForbidden(name)
      && !IsSpace(name[0]) && !IsSpace(name[|name| - 1])
  {
    SanitizedIsSafe(Some(TracerName(c)));
  }

  /** A blank tracer and the tracer "Unknown" write the same file. */
  lemma BlankAndUnknownShareAFile(w: string)
    requires AllSpace(w)
    ensures TracerFileName(Str(w)) == TracerFileName(Str("Unknown"))
  {
    BlankTracerFile(Str(w));
    var u := "Unknown";
    assert u[0] == 'U' && u[6] == 'n';
    TrimNoop(u);
    assert TracerName(Str(u)) == u;
    SanitizeUnknown();
  }
}
