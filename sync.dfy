/** The database side of email synchronisation (email_sync/sync_manager.py):
    which addresses count as company addresses, which fetched emails are
    dropped as internal, and how a batch of fetched emails is matched to
    companies and stored without duplicating a message id. */
module Sync {
  import opened Common
  import opened Text

  /** A company row as the sync manager reads it. `email` is NOT NULL in the
      schema; `alt_email` may be NULL. */
  datatype CompanyContact = CompanyContact(id: int, email: string, altEmail: Option<string>)

  /** An email as the IMAP fetch hands it over. */
  datatype FetchedEmail = FetchedEmail(dir: Direction, fromAddr: string, toAddr: string,
                                       subject: string, date: int, messageId: string)

  /** A row of the `emails` table; the table is keyed by its unique `message_id`. */
  datatype StoredEmail = StoredEmail(companyId: int, dir: Direction, fromAddr: string,
                                     toAddr: string, subject: string, date: int)

  // ---------------------------------------------------------------------
  // get_company_emails (lines 40-56)

  /** The lower-cased non-empty `email` and `alt_email` values of every company. */
  ghost predicate IsCompanyAddress(companies: seq<CompanyContact>, a: string)
  {
    exists k :: 0 <= k < |companies| &&
      ((companies[k].email != [] && a == Lower(companies[k].email))
       || (companies[k].altEmail.Some? && companies[k].altEmail.value != [] && a == Lower(companies[k].altEmail.value)))
  }

  /** `get_company_emails`: every company address once. The source returns
      `list(set(...))`, whose order is unspecified; this one keeps first
      occurrences in table order. */
  method CompanyEmails(companies: seq<CompanyContact>) returns (emails: seq<string>)
    ensures forall a :: a in emails <==> IsCompanyAddress(companies, a)
    ensures forall i, j :: 0 <= i < j < |emails| ==> emails[i] != emails[j]
  {
    var all: seq<string> := [];
    for k := 0 to |companies|
      invariant forall a :: a in all <==> IsCompanyAddress(companies[..k], a)
    {
      var c := companies[k];
      assert forall a :: IsCompanyAddress(companies[..k + 1], a)
                     <==> IsCompanyAddress(companies[..k], a) || IsCompanyAddress([c], a) by {
        assert forall j :: 0 <= j < k ==> companies[..k + 1][j] == companies[..k][j];
        assert companies[..k + 1][k] == c;
        assert [c][0] == c;
      }
      if c.email != [] {
        all := all + [Lower(c.email)];
      }
      if c.altEmail.Some? && c.altEmail.value != [] {
        all := all + [Lower(c.altEmail.value)];
      }
    }
    assert companies[..|companies|] == companies;
    emails := Distinct(all);
  }

  /** The elements of `s` once each, in order of first occurrence. */
  method Distinct(s: seq<string>) returns (r: seq<string>)
    ensures forall a :: a in r <==> a in s
    ensures forall i, j :: 0 <= i < j < |r| ==> r[i] != r[j]
  {
    r := [];
    var seen: set<string> := {};
    for k := 0 to |s|
      invariant forall a :: a in r <==> a in s[..k]
      invariant seen == set a | a in r
      invariant forall i, j :: 0 <= i < j < |r| ==> r[i] != r[j]
    {
      assert s[..k + 1] == s[..k] + [s[k]];
      if s[k] !in seen {
        r := r + [s[k]];
        seen := seen + {s[k]};
      }
    }
    assert s[..|s|] == s;
  }

  // ---------------------------------------------------------------------
  // filter_internal_domains (lines 158-174)

  /** `addr.split('@')[-1] if '@' in addr else ''`: the text after the last
      '@' (`DomainShape` states it). */
  function Domain(addr: string): string
  {
    if '@' !in addr || addr[|addr| - 1] == '@' then []
    else Domain(addr[..|addr| - 1]) + [addr[|addr| - 1]]
  }

  /** The domain holds no '@'; it is empty without an '@', and otherwise it is
      the part of the address after its last '@'. */
  lemma {:induction false} DomainShape(addr: string)
    ensures '@' !in Domain(addr)
    ensures '@' !in addr ==> Domain(addr) == []
    ensures '@' in addr ==> (|Domain(addr)| < |addr| && Domain(addr) == addr[|addr| - |Domain(addr)|..]
                             && addr[|addr| - |Domain(addr)| - 1] == '@')
  {
    if '@' in addr && addr[|addr| - 1] != '@' {
      var front := addr[..|addr| - 1];
      assert forall i :: 0 <= i < |addr| - 1 ==> addr[i] == front[i];
      assert '@' in front;
      DomainShape(front);
    }
  }

  /** `d.lstrip('@')`. */
  function StripLeadingAt(d: string): (r: string)
    ensures r == [] || r[0] != '@'
    ensures |r| <= |d|
  {
    if d != [] && d[0] == '@' then StripLeadingAt(d[1..]) else d
  }

  /** `lstrip('@')` removes a run of '@' from the front and nothing else. */
  lemma {:induction false} StripLeadingAtShape(d: string)
    ensures var r := StripLeadingAt(d);
      r == d[|d| - |r|..] && forall i :: 0 <= i < |d| - |r| ==> d[i] == '@'
  {
    if d != [] && d[0] == '@' {
      StripLeadingAtShape(d[1..]);
      var n := |d| - |StripLeadingAt(d)|;
      assert d[1..][n - 1..] == d[n..];
      assert forall i :: 1 <= i < n ==> d[i] == d[1..][i - 1];
    }
  }

  /** A domain is internal when it ends with some configured domain, lower-cased
      and with its leading '@' removed. The domain itself is not lower-cased,
      and there is no check that the match starts at a label boundary. */
  predicate IsInternal(domain: string, internal: seq<string>)
  {
    EndsWithAny(domain, Map(internal, Lower))
  }

  /** `any(domain.endswith(d.lstrip('@')) for d in lowered)`. */
  predicate EndsWithAny(domain: string, lowered: seq<string>)
  {
    exists k :: 0 <= k < |lowered| && EndsWith(domain, StripLeadingAt(lowered[k]))
  }

  /** An email is kept unless both its sender's and its recipient's domains are internal. */
  function Kept(internal: seq<string>): FetchedEmail -> bool
  {
    (e: FetchedEmail) => !(IsInternal(Domain(e.fromAddr), internal) && IsInternal(Domain(e.toAddr), internal))
  }

  /** `filter_internal_domains`. */
  method FilterInternalDomains(emails: seq<FetchedEmail>, internal: seq<string>) returns (filtered: seq<FetchedEmail>)
    ensures filtered == Filter(emails, Kept(internal))
  {
    filtered := [];
    var lowered := Map(internal, Lower);
    for k := 0 to |emails|
      invariant filtered == Filter(emails[..k], Kept(internal))
    {
      var e := emails[k];
      var fromDomain := Domain(e.fromAddr);
      var toDomain := Domain(e.toAddr);
      var fromInternal := EndsWithAny(fromDomain, lowered);
      var toInternal := EndsWithAny(toDomain, lowered);
      FilterStep(emails, k, Kept(internal));
      if !(fromInternal && toInternal) {
        filtered := filtered + [e];
      }
    }
    assert emails[..|emails|] == emails;
  }

  /** The filter keeps the order of the emails it keeps, and drops one exactly
      when both of its domains are internal. */
  lemma FilterKeepsOrderAndDropsOnlyInternal(emails: seq<FetchedEmail>, internal: seq<string>)
    ensures SubsequenceOf(Filter(emails, Kept(internal)), emails)
    ensures forall e :: e in emails ==>
              (e !in Filter(emails, Kept(internal))
               <==> IsInternal(Domain(e.fromAddr), internal) && IsInternal(Domain(e.toAddr), internal))
  {
    FilterIsSubsequence(emails, Kept(internal));
  }

  /** With no internal domains configured, nothing is dropped. */
  lemma NoInternalDomainsKeepsAll(emails: seq<FetchedEmail>)
    ensures Filter(emails, Kept([])) == emails
  {
    FilterAll(emails, Kept([]));
  }

  /** A configured entry that is empty or only '@' matches every domain, so
      then every email is dropped. */
  lemma BlankInternalEntryDropsAll(emails: seq<FetchedEmail>, internal: seq<string>, k: int)
    requires 0 <= k < |internal| && StripLeadingAt(Lower(internal[k])) == []
    ensures Filter(emails, Kept(internal)) == []
  {
    forall i | 0 <= i < |emails| ensures !Kept(internal)(emails[i]) {
      DroppedByBlankEntry(emails[i], internal, k);
    }
    CountZero(emails, Kept(internal));
  }

  lemma DroppedByBlankEntry(e: FetchedEmail, internal: seq<string>, k: int)
    requires 0 <= k < |internal| && StripLeadingAt(Lower(internal[k])) == []
    ensures !Kept(internal)(e)
  {
    DomainInternalByBlankEntry(e.fromAddr, internal, k);
    DomainInternalByBlankEntry(e.toAddr, internal, k);
  }

  lemma DomainInternalByBlankEntry(addr: string, internal: seq<string>, k: int)
    requires 0 <= k < |internal| && StripLeadingAt(Lower(internal[k])) == []
    ensures IsInternal(Domain(addr), internal)
  {
    InternalByEntry(Domain(addr), internal, k);
  }

  /** A domain ending with one configured entry is internal. */
  lemma InternalByEntry(domain: string, internal: seq<string>, k: int)
    requires 0 <= k < |internal| && EndsWith(domain, StripLeadingAt(Lower(internal[k])))
    ensures IsInternal(domain, internal)
  {
    assert Map(internal, Lower)[k] == Lower(internal[k]);
  }

  /** Any text in front of a configured domain still matches it: the match is
      a plain suffix test, so "evil" + "example.com" counts as internal for
      "@example.com". */
  lemma SuffixMatchIgnoresLabels(prefix: string, internal: seq<string>, k: int)
    requires 0 <= k < |internal|
    ensures IsInternal(prefix + StripLeadingAt(Lower(internal[k])), internal)
  {
    var d := StripLeadingAt(Lower(internal[k]));
    assert (prefix + d)[|prefix + d| - |d|..] == d;
    InternalByEntry(prefix + d, internal, k);
  }

  // ---------------------------------------------------------------------
  // save_emails (lines 85-156)

  /** `get_company_id_by_email`: the first company (in table order) whose email
      or alt_email equals the address, ignoring case; NULL alt_email never matches. */
  function LookupCompany(companies: seq<CompanyContact>, addr: string): (r: Option<int>)
    ensures r.None? <==> forall k :: 0 <= k < |companies| ==> !MatchesAddress(companies[k], addr)
    ensures r.Some? ==> exists k :: 0 <= k < |companies| && MatchesAddress(companies[k], addr) && companies[k].id == r.value
  {
    if companies == [] then None
    else if MatchesAddress(companies[0], addr) then Some(companies[0].id)
    else
      var r := LookupCompany(companies[1..], addr);
      assert forall k :: 1 <= k < |companies| ==> companies[k] == companies[1..][k - 1];
      r
  }

  predicate MatchesAddress(c: CompanyContact, addr: string)
  {
    Lower(c.email) == Lower(addr) || (c.altEmail.Some? && Lower(c.altEmail.value) == Lower(addr))
  }

  /** The address a fetched email is matched on: the sender of an incoming
      email, the recipient otherwise. */
  function MatchAddress(e: FetchedEmail): string
  {
    if e.dir == Incoming then e.fromAddr else e.toAddr
  }

  /** The company an email belongs to; an id of 0 counts as no match (`not company_id`). */
  function CompanyOf(companies: seq<CompanyContact>): FetchedEmail -> Option<int>
  {
    (e: FetchedEmail) =>
      var id := LookupCompany(companies, MatchAddress(e));
      if id.Some? && id.value != 0 then id else None
  }

  /** An email belongs to a company exactly when the first company row whose
      email or alt_email matches its address, ignoring case, has a non-zero id. */
  lemma CompanyOfFirstMatch(companies: seq<CompanyContact>, e: FetchedEmail)
    ensures CompanyOf(companies)(e).Some? ==>
              CompanyOf(companies)(e).value != 0
              && exists k :: 0 <= k < |companies| && MatchesAddress(companies[k], MatchAddress(e))
                             && companies[k].id == CompanyOf(companies)(e).value
    ensures (forall k :: 0 <= k < |companies| ==> !MatchesAddress(companies[k], MatchAddress(e)))
            ==> CompanyOf(companies)(e).None?
    ensures var id := LookupCompany(companies, MatchAddress(e));
      id.Some? && id.value != 0 ==> CompanyOf(companies)(e) == id
    ensures var id := LookupCompany(companies, MatchAddress(e));
      id.Some? && id.value == 0 ==> CompanyOf(companies)(e).None?
  {
  }

  /** The state of the `emails` table and the running `saved_count`. */
  datatype SaveState = SaveState(table: map<string, StoredEmail>, saved: nat)

  function Matched(companyOf: FetchedEmail -> Option<int>): FetchedEmail -> bool
  {
    (e: FetchedEmail) => companyOf(e).Some?
  }

  /** One email through `INSERT OR IGNORE`: stored and counted when it belongs
      to a company and its message id is new. */
  function SaveOne(companyOf: FetchedEmail -> Option<int>, st: SaveState, e: FetchedEmail): SaveState
  {
    var id := companyOf(e);
    if id.None? || e.messageId in st.table then st
    else SaveState(st.table[e.messageId := StoredEmail(id.value, e.dir, e.fromAddr, e.toAddr, e.subject, e.date)],
                   st.saved + 1)
  }

  /** The whole batch, in order. */
  function SaveAll(companyOf: FetchedEmail -> Option<int>, st: SaveState, emails: seq<FetchedEmail>): SaveState
    decreases |emails|
  {
    if emails == [] then st else SaveAll(companyOf, SaveOne(companyOf, st, emails[0]), emails[1..])
  }

  /** Stored rows are never changed or removed. */
  lemma {:induction false} SaveKeepsStoredRows(companyOf: FetchedEmail -> Option<int>, st: SaveState, emails: seq<FetchedEmail>)
    ensures st.table.Keys <= SaveAll(companyOf, st, emails).table.Keys
    ensures forall m :: m in st.table ==> SaveAll(companyOf, st, emails).table[m] == st.table[m]
    decreases |emails|
  {
    if emails != [] {
      SaveKeepsStoredRows(companyOf, SaveOne(companyOf, st, emails[0]), emails[1..]);
    }
  }

  /** The number saved is the number of new message ids in the table. */
  lemma {:induction false} SavedCountsNewIds(companyOf: FetchedEmail -> Option<int>, st: SaveState, emails: seq<FetchedEmail>)
    ensures SaveAll(companyOf, st, emails).saved
         == st.saved + |SaveAll(companyOf, st, emails).table.Keys - st.table.Keys|
    decreases |emails|
  {
    if emails != [] {
      var mid := SaveOne(companyOf, st, emails[0]);
      SavedCountsNewIds(companyOf, mid, emails[1..]);
      SaveKeepsStoredRows(companyOf, mid, emails[1..]);
      SaveOneCountsNewId(companyOf, st, emails[0], SaveAll(companyOf, mid, emails[1..]).table.Keys);
    } else {
      assert st.table.Keys - st.table.Keys == {};
    }
  }

  /** Saving one email counts one more exactly when it adds one more message id. */
  lemma SaveOneCountsNewId(companyOf: FetchedEmail -> Option<int>, st: SaveState, e: FetchedEmail, after: set<string>)
    requires SaveOne(companyOf, st, e).table.Keys <= after
    ensures var mid := SaveOne(companyOf, st, e);
      mid.saved + |after - mid.table.Keys| == st.saved + |after - st.table.Keys|
  {
    if companyOf(e).Some? && e.messageId !in st.table {
      NewKeysOneMore(st.table.Keys, e.messageId, after);
    }
  }

  lemma NewKeysOneMore(before: set<string>, m: string, after: set<string>)
    requires m !in before && before + {m} <= after
    ensures |after - before| == |after - (before + {m})| + 1
  {
    var rest := after - (before + {m});
    assert m !in rest;
    assert after - before == rest + {m};
  }

  /** Every row the batch adds comes from an email of the batch with that
      message id, stored under the company that email belongs to. */
  lemma {:induction false} SavedRowsAreMatched(companyOf: FetchedEmail -> Option<int>, st: SaveState, emails: seq<FetchedEmail>)
    ensures forall m :: m in SaveAll(companyOf, st, emails).table && m !in st.table ==>
              exists e :: e in emails && companyOf(e).Some? && e.messageId == m
                          && SaveAll(companyOf, st, emails).table[m].companyId == companyOf(e).value
    decreases |emails|
  {
    if emails != [] {
      var mid := SaveOne(companyOf, st, emails[0]);
      SavedRowsAreMatched(companyOf, mid, emails[1..]);
      SaveKeepsStoredRows(companyOf, mid, emails[1..]);
      assert forall x :: x in emails[1..] ==> x in emails;
    }
  }

  /** After the batch, the message id of every email that belongs to a company is stored. */
  lemma {:induction false} MatchedIdsAreStored(companyOf: FetchedEmail -> Option<int>, st: SaveState, emails: seq<FetchedEmail>)
    ensures forall e :: e in emails && companyOf(e).Some? ==> e.messageId in SaveAll(companyOf, st, emails).table
    decreases |emails|
  {
    if emails != [] {
      var mid := SaveOne(companyOf, st, emails[0]);
      MatchedIdsAreStored(companyOf, mid, emails[1..]);
      SaveKeepsStoredRows(companyOf, mid, emails[1..]);
      assert forall x :: x in emails ==> x == emails[0] || x in emails[1..];
    }
  }

  /** `saved_count` never exceeds the number of emails that belong to a
      company, nor the batch size. */
  lemma {:induction false} SavedAtMostMatched(companyOf: FetchedEmail -> Option<int>, st: SaveState, emails: seq<FetchedEmail>)
    ensures SaveAll(companyOf, st, emails).saved <= st.saved + Count(emails, Matched(companyOf))
    ensures SaveAll(companyOf, st, emails).saved <= st.saved + |emails|
    decreases |emails|
  {
    if emails != [] {
      SavedAtMostMatched(companyOf, SaveOne(companyOf, st, emails[0]), emails[1..]);
    }
  }

  /** Saving the same batch again stores nothing. */
  lemma SaveAllTwiceSavesNothing(companyOf: FetchedEmail -> Option<int>, st: SaveState, emails: seq<FetchedEmail>)
    ensures var once := SaveAll(companyOf, st, emails);
      SaveAll(companyOf, SaveState(once.table, 0), emails) == SaveState(once.table, 0)
  {
    MatchedIdsAreStored(companyOf, st, emails);
    SaveAllNoOp(companyOf, SaveState(SaveAll(companyOf, st, emails).table, 0), emails);
  }

  lemma {:induction false} SaveAllNoOp(companyOf: FetchedEmail -> Option<int>, st: SaveState, emails: seq<FetchedEmail>)
    requires forall e :: e in emails && companyOf(e).Some? ==> e.messageId in st.table
    ensures SaveAll(companyOf, st, emails) == st
    decreases |emails|
  {
    if emails != [] {
      assert SaveOne(companyOf, st, emails[0]) == st;
      assert forall x :: x in emails[1..] ==> x in emails;
      SaveAllNoOp(companyOf, st, emails[1..]);
    }
  }

  lemma SaveAllStep(companyOf: FetchedEmail -> Option<int>, st: SaveState, emails: seq<FetchedEmail>, k: int)
    requires 0 <= k < |emails|
    ensures SaveAll(companyOf, st, emails[k..]) == SaveAll(companyOf, SaveOne(companyOf, st, emails[k]), emails[k + 1..])
  {
    assert emails[k..][1..] == emails[k + 1..];
  }

  /** The `emails` table of one auditor database, keyed by message id. */
  class EmailTable {
    var rows: map<string, StoredEmail>

    constructor (initial: map<string, StoredEmail>)
      ensures rows == initial
    {
      rows := initial;
    }

    /** `save_emails`: for each email in order, look up its company, skip it
        if there is none, otherwise insert it unless its message id is stored;
        return how many rows were inserted. */
    method SaveEmails(companies: seq<CompanyContact>, emails: seq<FetchedEmail>) returns (saved: nat)
      modifies this
      ensures SaveState(rows, saved) == SaveAll(CompanyOf(companies), SaveState(old(rows), 0), emails)
    {
      saved := 0;
      for k := 0 to |emails|
        invariant SaveAll(CompanyOf(companies), SaveState(rows, saved), emails[k..])
               == SaveAll(CompanyOf(companies), SaveState(old(rows), 0), emails)
      {
        var e := emails[k];
        ghost var before := SaveState(rows, saved);
        SaveAllStep(CompanyOf(companies), before, emails, k);
        var companyId := LookupCompany(companies, if e.dir == Incoming then e.fromAddr else e.toAddr);
        assert companyId == LookupCompany(companies, MatchAddress(e));
        if companyId.None? || companyId.value == 0 {
          assert SaveOne(CompanyOf(companies), before, e) == before;
          continue;
        }
        if e.messageId !in rows {
          rows := rows[e.messageId := StoredEmail(companyId.value, e.dir, e.fromAddr, e.toAddr, e.subject, e.date)];
          saved := saved + 1;
        }
        assert SaveState(rows, saved) == SaveOne(CompanyOf(companies), before, e);
      }
    }
  }
}
