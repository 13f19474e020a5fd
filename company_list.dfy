/** The company-list logic of the dashboard (ui/auditor_dashboard.py,
    show_company_list_tab): the single-company add form, the header
    normaliser and alias table of the spreadsheet import, and the import
    loop that skips rows whose UIF reference is already known. */
module CompanyList {
  import opened Common
  import opened Text

  /** One row of the uploaded sheet, after renaming, by the columns the import reads. */
  datatype ImportRow = ImportRow(uif: Cell, tradeName: Cell, email: Cell, altEmail: Cell)

  /** A row inserted into the companies table by the import. */
  datatype Inserted = Inserted(uifRef: string, tradeName: Cell, email: Cell, altEmail: Cell)

  /** The outcome of the "Add Company" form. */
  datatype AddOutcome = RequiredMissing | AlreadyExists | Added(uifRef: string, tradeName: string, email: string, altEmail: string)

  // ---------------------------------------------------------------------
  // Add one company (lines 336-352)

  function OrEmpty(s: Option<string>): string
  {
    if s.Some? then s.value else ""
  }

  /** The three required fields are stripped and must be non-empty; the UIF is
      compared, lower-cased, with `LOWER(IFNULL(uif_ref,''))` of every stored
      company, which is not stripped. The alternative email is stored as typed. */
  function AddCompany(stored: seq<Option<string>>, uif: string, trade: string, email: string, alt: string): AddOutcome
  {
    var u, t, e := Trim(uif), Trim(trade), Trim(email);
    if u == [] || t == [] || e == [] then RequiredMissing
    else if exists k :: 0 <= k < |stored| && Lower(OrEmpty(stored[k])) == Lower(u) then AlreadyExists
    else Added(u, t, e, alt)
  }

  /** Adding never stores a UIF that, lower-cased, equals a stored one, never
      stores a blank required field, and refuses only for a blank required
      field or a stored UIF. */
  lemma AddCompanyNeverDuplicates(stored: seq<Option<string>>, uif: string, trade: string, email: string, alt: string)
    ensures AddCompany(stored, uif, trade, email, alt).Added? ==>
      var a := AddCompany(stored, uif, trade, email, alt);
      a.uifRef == Trim(uif) && a.uifRef != [] && a.tradeName != [] && a.email != []
      && forall k :: 0 <= k < |stored| ==> Lower(OrEmpty(stored[k])) != Lower(a.uifRef)
    ensures AddCompany(stored, uif, trade, email, alt).RequiredMissing?
        <==> Trim(uif) == [] || Trim(trade) == [] || Trim(email) == []
    ensures Trim(uif) != [] && Trim(trade) != [] && Trim(email) != [] ==>
      (AddCompany(stored, uif, trade, email, alt).AlreadyExists? <==>
         exists k :: 0 <= k < |stored| && Lower(OrEmpty(stored[k])) == Lower(Trim(uif)))
    ensures Trim(uif) != [] && Trim(trade) != [] && Trim(email) != [] ==>
      (AddCompany(stored, uif, trade, email, alt).Added? <==>
         forall k :: 0 <= k < |stored| ==> Lower(OrEmpty(stored[k])) != Lower(Trim(uif)))
    ensures AddCompany(stored, uif, trade, email, alt).Added? ==>
      AddCompany(stored, uif, trade, email, alt) == Added(Trim(uif), Trim(trade), Trim(email), alt)
  {
  }

  // ---------------------------------------------------------------------
  // Header normalisation and aliases (lines 469-517)

  predicate IsWordChar(c: char)
  {
    'A' <= c <= 'Z' || '0' <= c <= '9'
  }

  predicate NoDoubleUnderscore(s: string)
  {
    forall i :: 0 <= i < |s| - 1 ==> !(s[i] == '_' && s[i + 1] == '_')
  }

  predicate WordOrUnderscore(s: string)
  {
    forall i :: 0 <= i < |s| ==> IsWordChar(s[i]) || s[i] == '_'
  }

  /** Drops the leading characters outside `[A-Z0-9]`. */
  function DropNonWord(s: string): (r: string)
    ensures |r| <= |s|
    ensures r == [] || IsWordChar(r[0])
  {
    if s != [] && !IsWordChar(s[0]) then DropNonWord(s[1..]) else s
  }

  /** `re.sub(r"[^A-Z0-9]+", "_", s)`: every run of characters outside
      `[A-Z0-9]` becomes one '_'. */
  function ReplaceNonWordRuns(s: string): (r: string)
    ensures WordOrUnderscore(r) && NoDoubleUnderscore(r)
    ensures r == [] <==> s == []
    ensures r != [] ==> s != [] && (r[0] == '_' <==> !IsWordChar(s[0]))
    decreases |s|
  {
    if s == [] then []
    else if IsWordChar(s[0]) then [s[0]] + ReplaceNonWordRuns(s[1..])
    else
      var rest := ReplaceNonWordRuns(DropNonWord(s[1..]));
      "_" + rest
  }

  predicate NoWordChar(s: string)
  {
    forall i :: 0 <= i < |s| ==> !IsWordChar(s[i])
  }

  /** Dropping the leading non-word characters of a run followed by a word
      character (or nothing) leaves exactly what follows the run. */
  lemma {:induction false} DropNonWordRun(g: string, s: string)
    requires NoWordChar(g) && (s == [] || IsWordChar(s[0]))
    ensures DropNonWord(g + s) == s
  {
    if g == [] {
      assert g + s == s;
    } else {
      assert (g + s)[1..] == g[1..] + s;
      DropNonWordRun(g[1..], s);
    }
  }

  /** A whole run of characters outside `[A-Z0-9]`, up to the next word
      character or the end, becomes one '_'. Together with
      `ReplaceNonWordRunsKeepsWords` this fixes the result of every input,
      which splits into word characters and maximal runs of others. */
  lemma ReplaceNonWordRunsSplit(g: string, s: string)
    requires g != [] && NoWordChar(g) && (s == [] || IsWordChar(s[0]))
    ensures ReplaceNonWordRuns(g + s) == "_" + ReplaceNonWordRuns(s)
  {
    assert (g + s)[0] == g[0] && (g + s)[1..] == g[1..] + s;
    DropNonWordRun(g[1..], s);
  }

  /** Word characters are kept as they are. */
  lemma {:induction false} ReplaceNonWordRunsKeepsWords(w: string, s: string)
    requires forall i :: 0 <= i < |w| ==> IsWordChar(w[i])
    ensures ReplaceNonWordRuns(w + s) == w + ReplaceNonWordRuns(s)
  {
    if w == [] {
      assert w + s == s;
    } else {
      ReplaceNonWordRunsCons(w, s);
      ReplaceNonWordRunsKeepsWords(w[1..], s);
    }
  }

  /** The first character of a word is kept. */
  lemma ReplaceNonWordRunsCons(w: string, s: string)
    requires w != [] && forall i :: 0 <= i < |w| ==> IsWordChar(w[i])
    ensures forall i :: 0 <= i < |w[1..]| ==> IsWordChar(w[1..][i])
    ensures ReplaceNonWordRuns(w + s) == [w[0]] + ReplaceNonWordRuns(w[1..] + s)
    ensures w == [w[0]] + w[1..]
  {
    assert (w + s)[0] == w[0] && (w + s)[1..] == w[1..] + s;
  }

  predicate AllUnderscores(s: string)
  {
    forall i :: 0 <= i < |s| ==> s[i] == '_'
  }

  /** Dropping the leading '_' of a run followed by another character (or
      nothing) leaves exactly what follows the run. */
  lemma {:induction false} DropUnderscoresRun(u: string, s: string)
    requires AllUnderscores(u) && (s == [] || s[0] != '_')
    ensures DropUnderscores(u + s) == s
  {
    if u == [] {
      assert u + s == s;
    } else {
      assert (u + s)[1..] == u[1..] + s;
      DropUnderscoresRun(u[1..], s);
    }
  }

  /** A whole run of '_', up to the next other character or the end, becomes
      one '_'. Together with `CollapseUnderscoresKeepsOthers` this fixes the
      result of every input. */
  lemma CollapseUnderscoresSplit(u: string, s: string)
    requires u != [] && AllUnderscores(u) && (s == [] || s[0] != '_')
    ensures CollapseUnderscores(u + s) == "_" + CollapseUnderscores(s)
  {
    assert (u + s)[0] == '_' && (u + s)[1..] == u[1..] + s;
    DropUnderscoresRun(u[1..], s);
  }

  /** Characters other than '_' are kept as they are. */
  lemma {:induction false} CollapseUnderscoresKeepsOthers(w: string, s: string)
    requires forall i :: 0 <= i < |w| ==> w[i] != '_'
    ensures CollapseUnderscores(w + s) == w + CollapseUnderscores(s)
  {
    if w == [] {
      assert w + s == s;
    } else {
      CollapseUnderscoresCons(w, s);
      CollapseUnderscoresKeepsOthers(w[1..], s);
    }
  }

  /** The first character of a text without '_' is kept. */
  lemma CollapseUnderscoresCons(w: string, s: string)
    requires w != [] && forall i :: 0 <= i < |w| ==> w[i] != '_'
    ensures forall i :: 0 <= i < |w[1..]| ==> w[1..][i] != '_'
    ensures CollapseUnderscores(w + s) == [w[0]] + CollapseUnderscores(w[1..] + s)
    ensures w == [w[0]] + w[1..]
  {
    assert (w + s)[0] == w[0] && (w + s)[1..] == w[1..] + s;
  }

  /** Dropping the trailing '_' of a text that ends in a run of '_' leaves
      exactly what precedes the run. */
  lemma {:induction false} StripEndRun(m: string, v: string)
    requires AllUnderscores(v) && (m == [] || m[|m| - 1] != '_')
    ensures StripEnd(m + v) == m
  {
    if v == [] {
      assert m + v == m;
    } else {
      var w := v[..|v| - 1];
      assert (m + v)[..|m + v| - 1] == m + w;
      StripEndRun(m, w);
    }
  }

  /** `strip("_")` removes exactly the runs of '_' at both ends: a text that
      neither starts nor ends with '_', framed by runs of '_', comes back. */
  lemma StripUnderscoresEnds(u: string, m: string, v: string)
    requires AllUnderscores(u) && AllUnderscores(v)
    requires m == [] || (m[0] != '_' && m[|m| - 1] != '_')
    ensures StripUnderscores(u + m + v) == m
  {
    if m == [] {
      assert u + m + v == (u + v) + [];
      DropUnderscoresRun(u + v, []);
    } else {
      assert u + m + v == u + (m + v);
      DropUnderscoresRun(u, m + v);
      StripEndRun(m, v);
    }
  }

  /** Drops the leading '_' characters. */
  function DropUnderscores(s: string): (r: string)
    ensures |r| <= |s|
    ensures WordOrUnderscore(s) ==> WordOrUnderscore(r)
    ensures NoDoubleUnderscore(s) ==> NoDoubleUnderscore(r)
    ensures r == [] || r[0] != '_'
  {
    if s != [] && s[0] == '_' then DropUnderscores(s[1..]) else s
  }

  /** `re.sub(r"_+", "_", s)`: every run of '_' becomes one '_'. */
  function CollapseUnderscores(s: string): (r: string)
    ensures NoDoubleUnderscore(r)
    ensures WordOrUnderscore(s) ==> WordOrUnderscore(r)
    ensures r != [] ==> s != [] && (r[0] == '_' <==> s[0] == '_')
    ensures |r| <= |s|
    decreases |s|
  {
    if s == [] then []
    else if s[0] != '_' then [s[0]] + CollapseUnderscores(s[1..])
    else "_" + CollapseUnderscores(DropUnderscores(s[1..]))
  }

  /** `s.strip("_")`. */
  function StripUnderscores(s: string): (r: string)
    ensures WordOrUnderscore(s) ==> WordOrUnderscore(r)
    ensures NoDoubleUnderscore(s) ==> NoDoubleUnderscore(r)
    ensures r == [] || (r[0] != '_' && r[|r| - 1] != '_')
  {
    var front := DropUnderscores(s);
    StripEnd(front)
  }

  function StripEnd(s: string): (r: string)
    ensures |r| <= |s|
    ensures WordOrUnderscore(s) ==> WordOrUnderscore(r)
    ensures NoDoubleUnderscore(s) ==> NoDoubleUnderscore(r)
    ensures r == [] || r[|r| - 1] != '_'
    ensures s != [] && s[0] != '_' ==> r != [] && r[0] == s[0]
  {
    if s != [] && s[|s| - 1] == '_' then StripEnd(s[..|s| - 1]) else s
  }

  /** `norm`: strip, upper-case, one '_' for every run of other characters,
      and no '_' at either end. */
  function Norm(s: string): string
  {
    StripUnderscores(CollapseUnderscores(ReplaceNonWordRuns(Upper(Trim(s)))))
  }

  /** A normalised header holds only `A-Z`, `0-9` and '_', never starts or
      ends with '_' and never holds two '_' in a row. */
  lemma NormShape(s: string)
    ensures WordOrUnderscore(Norm(s)) && NoDoubleUnderscore(Norm(s))
    ensures Norm(s) == [] || (Norm(s)[0] != '_' && Norm(s)[|Norm(s)| - 1] != '_')
  {
  }

  predicate UpperWord(s: string)
  {
    s != [] && forall i :: 0 <= i < |s| ==> IsWordChar(s[i])
  }

  /** Two words of `[A-Z0-9]` joined by any run of characters that are
      neither word characters nor lower-case letters normalise to the two
      words joined by one '_'. */
  lemma NormJoinsWords(a: string, g: string, b: string)
    requires UpperWord(a) && UpperWord(b) && g != [] && NoWordChar(g)
    requires forall i :: 0 <= i < |g| ==> !('a' <= g[i] <= 'z')
    ensures Norm(a + g + b) == a + "_" + b
  {
    UpperTrimJoin(a, g, b);
    var r := ReplaceJoin(a, g, b);
    CollapseJoin(a, b, r);
    StripJoin(a, b, r);
  }

  lemma UpperTrimJoin(a: string, g: string, b: string)
    requires UpperWord(a) && UpperWord(b)
    requires forall i :: 0 <= i < |g| ==> !('a' <= g[i] <= 'z')
    ensures Upper(Trim(a + g + b)) == a + g + b
  {
    var h := a + g + b;
    assert h[0] == a[0] && h[|h| - 1] == b[|b| - 1];
    TrimNoop(h);
    assert forall i :: 0 <= i < |h| ==> !('a' <= h[i] <= 'z') by {
      assert forall i :: 0 <= i < |h| ==> h[i] == (if i < |a| then a[i] else if i < |a| + |g| then g[i - |a|] else b[i - |a| - |g|]);
    }
    UpperNoop(h);
  }

  lemma ReplaceJoin(a: string, g: string, b: string) returns (r: string)
    requires UpperWord(a) && UpperWord(b) && g != [] && NoWordChar(g)
    ensures r == a + "_" + b && ReplaceNonWordRuns(a + g + b) == r
  {
    assert a + g + b == a + (g + b);
    ReplaceNonWordRunsKeepsWords(b, []);
    assert b + [] == b;
    ReplaceNonWordRunsSplit(g, b);
    ReplaceNonWordRunsKeepsWords(a, g + b);
    r := a + "_" + b;
  }

  lemma CollapseJoin(a: string, b: string, r: string)
    requires UpperWord(a) && UpperWord(b) && r == a + "_" + b
    ensures CollapseUnderscores(r) == r
  {
    var t := "_" + b;
    CollapseUnderscoresTail(b);
    assert r == a + t;
    CollapseUnderscoresKeepsOthers(a, t);
  }

  lemma CollapseUnderscoresTail(b: string)
    requires UpperWord(b)
    ensures CollapseUnderscores("_" + b) == "_" + b
  {
    CollapseUnderscoresKeepsOthers(b, []);
    assert b + [] == b;
    CollapseUnderscoresSplit("_", b);
  }

  lemma StripJoin(a: string, b: string, r: string)
    requires UpperWord(a) && UpperWord(b) && r == a + "_" + b
    ensures StripUnderscores(r) == r
  {
    assert r[0] == a[0] && r[|r| - 1] == b[|b| - 1];
    StripUnderscoresEnds([], r, []);
    assert [] + r + [] == r;
  }

  /** "TRADE - NAME" normalises to the alias key of the trade name. */
  lemma NormExample(a: string, g: string, b: string)
    requires a == "TRADE" && g == " - " && b == "NAME"
    ensures Norm(a + g + b) == "TRADE_NAME"
  {
    NormJoinsWords(a, g, b);
  }

  /** The header aliases, keyed by normalised header. */
  const Aliases: map<string, string> := map[
    "UIF_REF" := "UIF Ref",
    "UIF_REF_NUMBER" := "UIF Ref",
    "UIF_REF__NUMBER" := "UIF Ref",
    "UIF_REFERENCE" := "UIF Ref",
    "UIF_REFERENCE_NUMBER" := "UIF Ref",
    "UIFNO" := "UIF Ref",
    "UIF_NUMBER" := "UIF Ref",
    "TRADENAME" := "Trade Name",
    "TRADE_NAME" := "Trade Name",
    "COMPANY_NAME" := "Trade Name",
    "NAME" := "Trade Name",
    "EMAIL" := "Email",
    "EMAIL_ADDRESS" := "Email",
    "PRIMARY_EMAIL" := "Email",
    "ALT_EMAIL" := "Alt Email",
    "ALTERNATE_EMAIL" := "Alt Email",
    "ALTERNATIVE_EMAIL" := "Alt Email",
    "ALTENATIVE_EMAIL" := "Alt Email",
    "SECONDARY_EMAIL" := "Alt Email"
  ]

  const RequiredColumns: seq<string> := ["UIF Ref", "Trade Name", "Email"]

  /** The alias key with a doubled '_' can never be produced by `Norm`, so
      that entry of the table is dead. */
  lemma DoubledUnderscoreAliasIsDead(header: string)
    ensures Norm(header) != "UIF_REF__NUMBER"
  {
    var d := "UIF_REF__NUMBER";
    assert !NoDoubleUnderscore(d) by {
      assert d[7] == '_' && d[8] == '_';
    }
    NeverNormalised(header, d);
  }

  /** A text with two '_' in a row is never a normalised header. */
  lemma NeverNormalised(header: string, d: string)
    requires !NoDoubleUnderscore(d)
    ensures Norm(header) != d
  {
    NormShape(header);
  }

  /** The renaming loop: header -> target for every header whose normalised
      form is a key of the alias table. */
  method HeaderRenames(columns: seq<string>) returns (renames: map<string, string>)
    ensures forall c :: c in renames <==> c in columns && Norm(c) in Aliases
    ensures forall c :: c in renames ==> renames[c] == Aliases[Norm(c)]
  {
    renames := RenamesWith(columns, Aliases, Norm);
  }

  /** The renaming loop for any normaliser and alias table. */
  method RenamesWith(columns: seq<string>, aliases: map<string, string>, norm: string -> string)
    returns (renames: map<string, string>)
    ensures forall c :: c in renames <==> c in columns && norm(c) in aliases
    ensures forall c :: c in renames ==> renames[c] == aliases[norm(c)]
  {
    renames := map[];
    for i := 0 to |columns|
      invariant forall c :: c in renames <==> c in columns[..i] && norm(c) in aliases
      invariant forall c :: c in renames ==> renames[c] == aliases[norm(c)]
    {
      var key := norm(columns[i]);
      assert columns[..i + 1] == columns[..i] + [columns[i]];
      if key in aliases {
        renames := renames[columns[i] := aliases[key]];
      }
    }
    assert columns[..|columns|] == columns;
  }

  /** The column names after `df.rename(columns=renames)`. */
  function Renamed(columns: seq<string>, renames: map<string, string>): (r: seq<string>)
    ensures |r| == |columns|
  {
    Map(columns, (c: string) => if c in renames then renames[c] else c)
  }

  /** The required columns still missing after renaming; the import stops
      with an error unless this is empty. */
  function MissingRequired(columns: seq<string>): seq<string>
  {
    Filter(RequiredColumns, (name: string) => name !in columns)
  }

  /** After renaming, a required column is present exactly when some header
      normalises to one of its aliases, or is already spelled exactly as the
      required name and normalises to no alias. */
  lemma MissingRequiredIff(columns: seq<string>, renames: map<string, string>, name: string)
    requires forall c :: c in renames <==> c in columns && Norm(c) in Aliases
    requires forall c :: c in renames ==> renames[c] == Aliases[Norm(c)]
    requires name in RequiredColumns
    ensures name in MissingRequired(Renamed(columns, renames))
        <==> forall c :: c in columns ==> (if Norm(c) in Aliases then Aliases[Norm(c)] != name else c != name)
  {
    var r := Renamed(columns, renames);
    if name !in r {
      forall c | c in columns ensures (if Norm(c) in Aliases then Aliases[Norm(c)] != name else c != name) {
        var k :| 0 <= k < |columns| && columns[k] == c;
        assert r[k] == (if c in renames then renames[c] else c);
      }
    }
  }

  // ---------------------------------------------------------------------
  // The import loop (lines 528-546)

  /** The UIF text the import uses, as written: `str(cell or '').strip()`.
      A blank cell arrives as NaN, which is truthy, so it reads as "nan". */
  function UifTextAsWritten(c: Cell): string
  {
    match c
    case Blank => "nan"
    case Str(s) => Trim(s)
  }

  /** The UIF text as evidently intended: a blank cell reads as ''. */
  function UifText(c: Cell): string
  {
    match c
    case Blank => ""
    case Str(s) => Trim(s)
  }

  /** The keys of the stored companies: `(uif_ref or '').strip().lower()`. */
  function StoredKeys(stored: seq<Option<string>>): set<string>
  {
    set k | 0 <= k < |stored| :: Lower(Trim(OrEmpty(stored[k])))
  }

  /** The non-blank UIF keys of some rows. */
  function RowKeys(uifText: Cell -> string, rows: seq<ImportRow>): set<string>
  {
    set k | 0 <= k < |rows| && uifText(rows[k].uif) != "" :: Lower(uifText(rows[k].uif))
  }

  /** A row is skipped when its UIF is non-blank and its key is stored or
      belongs to an earlier row of the file. */
  predicate Skipped(uifText: Cell -> string, keys: set<string>, before: seq<ImportRow>, row: ImportRow)
  {
    uifText(row.uif) != "" && Lower(uifText(row.uif)) in keys + RowKeys(uifText, before)
  }

  function InsertedFrom(uifText: Cell -> string, row: ImportRow): Inserted
  {
    Inserted(uifText(row.uif), row.tradeName, row.email, row.altEmail)
  }

  /** The rows the import inserts, in file order. */
  function Imported(uifText: Cell -> string, keys: set<string>, rows: seq<ImportRow>): seq<Inserted>
  {
    if rows == [] then []
    else
      var before, row := rows[..|rows| - 1], rows[|rows| - 1];
      Imported(uifText, keys, before)
      + (if Skipped(uifText, keys, before, row) then [] else [InsertedFrom(uifText, row)])
  }

  /** A row can be stored only with a Trade Name and an Email: both columns
      are NOT NULL in the companies table (data/db_manager.py:89-90), and an
      empty cell arrives as NaN, which sqlite binds as NULL. */
  predicate Storable(a: Inserted)
  {
    a.tradeName.Str? && a.email.Str?
  }

  /** What an import leaves behind: the committed rows and their number, or
      nothing at all when an INSERT raised before the commit. */
  datatype ImportOutcome = Committed(inserted: nat, added: seq<Inserted>) | RolledBack

  /** The outcome of the import: the rows of `Imported` are committed when
      every one of them can be stored; otherwise the first one that cannot
      raises, the handler reports the error and the uncommitted inserts are
      lost. */
  function ImportResult(uifText: Cell -> string, keys: set<string>, rows: seq<ImportRow>): ImportOutcome
  {
    var added := Imported(uifText, keys, rows);
    if forall a :: a in added ==> Storable(a) then Committed(|added|, added) else RolledBack
  }

  /** The import loop, with the UIF of a blank cell read as ''. The set of
      known keys grows by each inserted non-blank key; an INSERT of a row
      without a Trade Name or an Email ends the import with nothing stored. */
  method ImportCompanies(stored: seq<Option<string>>, rows: seq<ImportRow>)
    returns (outcome: ImportOutcome)
    ensures outcome == ImportResult(UifText, StoredKeys(stored), rows)
  {
    var existing := StoredKeys(stored);
    var known := existing;
    var inserted := 0;
    var added := [];
    for i := 0 to |rows|
      invariant known == existing + RowKeys(UifText, rows[..i])
      invariant added == Imported(UifText, existing, rows[..i])
      invariant inserted == |added|
      invariant forall a :: a in added ==> Storable(a)
    {
      var row := rows[i];
      var uifVal := UifText(row.uif);
      ImportedStep(UifText, existing, rows, i);
      KnownStep(UifText, existing, rows, i, known);
      var skip := uifVal != "" && Lower(uifVal) in known;
      if !skip {
        var a := InsertedFrom(UifText, row);
        if !Storable(a) {
          RollbackAt(UifText, existing, rows, i);
          return RolledBack;
        }
        added := added + [a];
        inserted := inserted + 1;
        if uifVal != "" {
          known := known + {Lower(uifVal)};
        }
      }
    }
    assert rows[..|rows|] == rows;
    outcome := Committed(inserted, added);
  }

  /** The rows imported from a prefix of the file begin the rows imported
      from the whole file. */
  lemma {:induction false} ImportedPrefix(uifText: Cell -> string, keys: set<string>, rows: seq<ImportRow>, i: int)
    requires 0 <= i <= |rows|
    ensures Imported(uifText, keys, rows[..i]) <= Imported(uifText, keys, rows)
  {
    if i < |rows| {
      var before := rows[..|rows| - 1];
      assert rows[..i] == before[..i];
      ImportedPrefix(uifText, keys, before, i);
    } else {
      assert rows[..i] == rows;
    }
  }

  /** One row that is not skipped and lacks a Trade Name or an Email rolls
      the whole import back, whatever comes before or after it. */
  lemma RollbackAt(uifText: Cell -> string, keys: set<string>, rows: seq<ImportRow>, i: int)
    requires 0 <= i < |rows|
    requires !Skipped(uifText, keys, rows[..i], rows[i]) && !Storable(InsertedFrom(uifText, rows[i]))
    ensures ImportResult(uifText, keys, rows) == RolledBack
  {
    ImportedStep(uifText, keys, rows, i);
    ImportedPrefix(uifText, keys, rows, i + 1);
    var all, pre := Imported(uifText, keys, rows), Imported(uifText, keys, rows[..i]);
    assert all[|pre|] == InsertedFrom(uifText, rows[i]);
  }

  /** A rolled-back import has a row that is not skipped and lacks a Trade
      Name or an Email. */
  lemma {:induction false} RolledBackAtSomeRow(uifText: Cell -> string, keys: set<string>, rows: seq<ImportRow>)
    requires ImportResult(uifText, keys, rows) == RolledBack
    ensures exists i :: 0 <= i < |rows| && !Skipped(uifText, keys, rows[..i], rows[i])
                        && !Storable(InsertedFrom(uifText, rows[i]))
  {
    if rows != [] {
      var before, row := rows[..|rows| - 1], rows[|rows| - 1];
      var pre := Imported(uifText, keys, before);
      var tail := if Skipped(uifText, keys, before, row) then [] else [InsertedFrom(uifText, row)];
      assert Imported(uifText, keys, rows) == pre + tail;
      if forall a :: a in pre ==> Storable(a) {
        assert rows[..|rows| - 1] == before && rows[|rows| - 1] == row;
      } else {
        RolledBackAtSomeRow(uifText, keys, before);
        var i :| 0 <= i < |before| && !Skipped(uifText, keys, before[..i], before[i])
                 && !Storable(InsertedFrom(uifText, before[i]));
        assert before[..i] == rows[..i] && before[i] == rows[i];
      }
    }
  }

  /** The import is rolled back exactly when some row that is not skipped
      lacks a Trade Name or an Email. */
  lemma ImportRollsBackIff(uifText: Cell -> string, keys: set<string>, rows: seq<ImportRow>)
    ensures ImportResult(uifText, keys, rows) == RolledBack
        <==> exists i :: 0 <= i < |rows| && !Skipped(uifText, keys, rows[..i], rows[i])
                         && !Storable(InsertedFrom(uifText, rows[i]))
  {
    if ImportResult(uifText, keys, rows) == RolledBack {
      RolledBackAtSomeRow(uifText, keys, rows);
    } else if exists i :: 0 <= i < |rows| && !Skipped(uifText, keys, rows[..i], rows[i])
                          && !Storable(InsertedFrom(uifText, rows[i])) {
      var i :| 0 <= i < |rows| && !Skipped(uifText, keys, rows[..i], rows[i])
               && !Storable(InsertedFrom(uifText, rows[i]));
      RollbackAt(uifText, keys, rows, i);
    }
  }

  /** One more row: the import decides on it against everything before it. */
  lemma ImportedSnoc(uifText: Cell -> string, keys: set<string>, before: seq<ImportRow>, row: ImportRow)
    ensures Imported(uifText, keys, before + [row])
         == Imported(uifText, keys, before)
            + (if Skipped(uifText, keys, before, row) then [] else [InsertedFrom(uifText, row)])
    ensures RowKeys(uifText, before + [row])
         == RowKeys(uifText, before) + (if uifText(row.uif) != "" then {Lower(uifText(row.uif))} else {})
  {
    var rows := before + [row];
    assert rows[..|rows| - 1] == before;
    RowKeysSnoc(uifText, before, row);
  }

  lemma ImportedStep(uifText: Cell -> string, keys: set<string>, rows: seq<ImportRow>, i: int)
    requires 0 <= i < |rows|
    ensures Imported(uifText, keys, rows[..i + 1])
         == Imported(uifText, keys, rows[..i])
            + (if Skipped(uifText, keys, rows[..i], rows[i]) then [] else [InsertedFrom(uifText, rows[i])])
    ensures RowKeys(uifText, rows[..i + 1])
         == RowKeys(uifText, rows[..i]) + (if uifText(rows[i].uif) != "" then {Lower(uifText(rows[i].uif))} else {})
  {
    assert rows[..i + 1] == rows[..i] + [rows[i]];
    ImportedSnoc(uifText, keys, rows[..i], rows[i]);
  }

  /** One more row for the set of known keys: the row is skipped exactly when
      its non-blank key is known, and only a new key joins the set. */
  lemma KnownStep(uifText: Cell -> string, keys: set<string>, rows: seq<ImportRow>, i: int, known: set<string>)
    requires 0 <= i < |rows| && known == keys + RowKeys(uifText, rows[..i])
    ensures var v := uifText(rows[i].uif);
      (Skipped(uifText, keys, rows[..i], rows[i]) <==> v != "" && Lower(v) in known)
      && keys + RowKeys(uifText, rows[..i + 1]) == (if v != "" && Lower(v) !in known then known + {Lower(v)} else known)
  {
    ImportedStep(uifText, keys, rows, i);
  }

  lemma RowKeysSnoc(uifText: Cell -> string, before: seq<ImportRow>, row: ImportRow)
    ensures RowKeys(uifText, before + [row])
         == RowKeys(uifText, before) + (if uifText(row.uif) != "" then {Lower(uifText(row.uif))} else {})
  {
    var all := before + [row];
    assert forall k :: 0 <= k < |before| ==> all[k] == before[k];
    assert all[|before|] == row;
  }

  /** The import never inserts two rows with the same non-blank UIF key, nor
      one whose key was already stored. */
  lemma {:induction false} ImportedKeysAreNew(uifText: Cell -> string, keys: set<string>, rows: seq<ImportRow>)
    ensures forall a :: a in Imported(uifText, keys, rows) && a.uifRef != "" ==> Lower(a.uifRef) !in keys
    ensures forall i, j ::
              (0 <= i < j < |Imported(uifText, keys, rows)| && Imported(uifText, keys, rows)[i].uifRef != "")
              ==> Lower(Imported(uifText, keys, rows)[i].uifRef) != Lower(Imported(uifText, keys, rows)[j].uifRef)
    ensures forall a :: a in Imported(uifText, keys, rows) && a.uifRef != "" ==> Lower(a.uifRef) in RowKeys(uifText, rows)
  {
    if rows != [] {
      var before, row := rows[..|rows| - 1], rows[|rows| - 1];
      ImportedKeysAreNew(uifText, keys, before);
      RowKeysSnoc(uifText, before, row);
      assert rows == before + [row];
    }
  }

  /** A committed import inserts every row with a blank UIF, and every
      non-blank key of the file ends up stored: already, or through the first
      row holding it. */
  lemma ImportedCoversFile(uifText: Cell -> string, keys: set<string>, rows: seq<ImportRow>)
    ensures var outcome := ImportResult(uifText, keys, rows);
      outcome.Committed? ==>
        && Count(rows, (r: ImportRow) => uifText(r.uif) == "")
           == Count(outcome.added, (a: Inserted) => a.uifRef == "")
        && forall k :: k in RowKeys(uifText, rows) ==>
             k in keys || exists a :: a in outcome.added && a.uifRef != "" && Lower(a.uifRef) == k
  {
    BlankRowsAllImported(uifText, keys, rows);
    RowKeysAllStored(uifText, keys, rows);
  }

  lemma {:induction false} BlankRowsAllImported(uifText: Cell -> string, keys: set<string>, rows: seq<ImportRow>)
    ensures Count(rows, (r: ImportRow) => uifText(r.uif) == "")
         == Count(Imported(uifText, keys, rows), (a: Inserted) => a.uifRef == "")
  {
    if rows != [] {
      var before, row := rows[..|rows| - 1], rows[|rows| - 1];
      BlankRowsAllImported(uifText, keys, before);
      assert rows == before + [row];
      CountAppend(before, [row], (r: ImportRow) => uifText(r.uif) == "");
      var tail := if Skipped(uifText, keys, before, row) then [] else [InsertedFrom(uifText, row)];
      CountAppend(Imported(uifText, keys, before), tail, (a: Inserted) => a.uifRef == "");
    }
  }

  lemma {:induction false} RowKeysAllStored(uifText: Cell -> string, keys: set<string>, rows: seq<ImportRow>)
    ensures forall k :: k in RowKeys(uifText, rows) ==>
              k in keys || exists a :: a in Imported(uifText, keys, rows) && a.uifRef != "" && Lower(a.uifRef) == k
  {
    if rows != [] {
      var before, row := rows[..|rows| - 1], rows[|rows| - 1];
      RowKeysAllStored(uifText, keys, before);
      RowKeysSnoc(uifText, before, row);
      var tail := if Skipped(uifText, keys, before, row) then [] else [InsertedFrom(uifText, row)];
      var earlier, all := Imported(uifText, keys, before), Imported(uifText, keys, rows);
      assert all == earlier + tail;
      forall k | k in RowKeys(uifText, rows) && k !in keys
        ensures exists a :: a in all && a.uifRef != "" && Lower(a.uifRef) == k
      {
        if k in RowKeys(uifText, before) {
          var a :| a in earlier && a.uifRef != "" && Lower(a.uifRef) == k;
          assert a in all;
        } else {
          assert all[|all| - 1] == InsertedFrom(uifText, row);
        }
      }
    }
  }

  /** As written, two rows whose UIF cells are both blank share the key
      "nan", so the second is skipped and one company is committed; with
      blank read as '' both are. */
  lemma BlankUifRowsCollapseAsWritten(trade1: string, email1: string, trade2: string, email2: string)
    ensures var rows := [ImportRow(Blank, Str(trade1), Str(email1), Blank), ImportRow(Blank, Str(trade2), Str(email2), Blank)];
      ImportResult(UifTextAsWritten, {}, rows) == Committed(1, [Inserted("nan", Str(trade1), Str(email1), Blank)])
      && ImportResult(UifText, {}, rows).Committed? && ImportResult(UifText, {}, rows).inserted == 2
  {
    var r1, r2 := ImportRow(Blank, Str(trade1), Str(email1), Blank), ImportRow(Blank, Str(trade2), Str(email2), Blank);
    ImportedSnoc(UifTextAsWritten, {}, [], r1);
    ImportedSnoc(UifTextAsWritten, {}, [r1], r2);
    ImportedSnoc(UifText, {}, [], r1);
    ImportedSnoc(UifText, {}, [r1], r2);
    assert [] + [r1] == [r1] && [r1] + [r2] == [r1, r2];
    assert RowKeys(UifTextAsWritten, []) == {};
    assert Imported(UifTextAsWritten, {}, []) == [];
    assert Imported(UifText, {}, []) == [];
  }
}
