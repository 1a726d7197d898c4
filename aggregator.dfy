/** Folding the revision rows the database returns into one summary per page. */
module Aggregator {
  import opened Wrappers
  import opened Seqs
  import opened Dicts
  import opened Strings
  import opened RevisionRecord
  import opened SummaryRecords

  /** One row of the query result: a revision with the entity id of its page and,
      when the recent-changes table still has it, its patrol state. */
  datatype RevisionRow = RevisionRow(
    revId: int,
    revPage: int,
    revUser: int,
    revUserText: string,
    revTimestamp: string,
    entityId: string,
    rcPatrolled: Option<int>)

  /** `Revision(**row)`: the row without its entity id. */
  function ToRevision(r: RevisionRow): Revision
  {
    Revision(r.revId, r.revPage, r.revUser, r.revUserText, r.revTimestamp, r.rcPatrolled)
  }

  // ---------------------------------------------------------------------------
  // Keys
  // ---------------------------------------------------------------------------

  /** The key a page is grouped under: `str(rev_page)`. */
  function PageKey(r: RevisionRow): string
  {
    IntToString(r.revPage)
  }

  /** Rows are grouped under the same key exactly when they are on the same page. */
  lemma PageKeyIdentifiesPage(r1: RevisionRow, r2: RevisionRow)
    ensures PageKey(r1) == PageKey(r2) <==> r1.revPage == r2.revPage
  {
    IntToStringInjective(r1.revPage, r2.revPage);
  }

  /** The key a user's edits are counted under: `f"{rev_user}|{rev_user_text}"`. */
  function EncodeUserKey(id: int, name: string): string
  {
    IntToString(id) + "|" + name
  }

  function UserKey(r: RevisionRow): string
  {
    EncodeUserKey(r.revUser, r.revUserText)
  }

  /** `u.split("|", 1)` followed by `int()` on the first part; `None` where
      Python would raise (no `|`, or a first part that is not an integer). */
  function DecodeUserKey(u: string): Option<(int, string)>
  {
    var parts := SplitOnce(u, '|');
    if |parts| < 2 then None
    else
      match ParseInt(parts[0])
      case None => None
      case Some(id) => Some((id, parts[1]))
  }

  /** Decoding a user key gives back the id and the name it was built from, also
      when the name itself contains `|`: the id part never does. */
  lemma DecodeEncode(id: int, name: string)
    ensures DecodeUserKey(EncodeUserKey(id, name)) == Some((id, name))
  {
    var digits := IntToString(id);
    var u := EncodeUserKey(id, name);
    assert forall i :: 0 <= i < |digits| ==> digits[i] != '|';
    assert u[|digits|] == '|';
    assert u[..|digits|] == digits;
    assert u[|digits| + 1..] == name;
    assert Find(u, '|') == Some(|digits|) by {
      assert '|' !in u[..|digits|];
    }
    IntToStringParses(id);
  }

  /** Distinct (id, name) pairs get distinct keys. */
  lemma EncodeUserKeyInjective(id1: int, name1: string, id2: int, name2: string)
    ensures EncodeUserKey(id1, name1) == EncodeUserKey(id2, name2) <==> id1 == id2 && name1 == name2
  {
    DecodeEncode(id1, name1);
    DecodeEncode(id2, name2);
  }

  /** The strings `u` for which decoding and encoding again gives `u` back. */
  predicate IsUserKey(u: string)
  {
    match DecodeUserKey(u)
    case Some(p) => EncodeUserKey(p.0, p.1) == u
    case None => false
  }

  lemma EncodedIsUserKey(id: int, name: string)
    ensures IsUserKey(EncodeUserKey(id, name))
  {
    DecodeEncode(id, name);
  }

  // ---------------------------------------------------------------------------
  // What the summaries are meant to be
  // ---------------------------------------------------------------------------

  /** The page key of every row, in row order. */
  function PageKeys(rows: seq<RevisionRow>): seq<string>
  {
    seq(|rows|, i requires 0 <= i < |rows| => PageKey(rows[i]))
  }

  /** The user key of every row, in row order. */
  function UserKeys(rows: seq<RevisionRow>): seq<string>
  {
    seq(|rows|, i requires 0 <= i < |rows| => UserKey(rows[i]))
  }

  lemma KeysSnoc(rows: seq<RevisionRow>, r: RevisionRow)
    ensures PageKeys(rows + [r]) == PageKeys(rows) + [PageKey(r)]
    ensures UserKeys(rows + [r]) == UserKeys(rows) + [UserKey(r)]
  {
  }

  /** The rows grouped under key `k`, in row order. */
  function RowsWithKey(rows: seq<RevisionRow>, k: string): seq<RevisionRow>
  {
    if |rows| == 0 then []
    else
      var t, r := RowsWithKey(rows[..|rows| - 1], k), rows[|rows| - 1];
      if PageKey(r) == k then t + [r] else t
  }

  lemma RowsWithKeySnoc(rows: seq<RevisionRow>, r: RevisionRow, k: string)
    ensures RowsWithKey(rows + [r], k) == if PageKey(r) == k then RowsWithKey(rows, k) + [r] else RowsWithKey(rows, k)
  {
    assert (rows + [r])[..|rows|] == rows;
  }

  /** A key has rows exactly when some row carries it, and the first of them is
      the first such row of the input. */
  lemma {:induction false} RowsWithKeyFirst(rows: seq<RevisionRow>, k: string)
    ensures |RowsWithKey(rows, k)| > 0 <==> k in PageKeys(rows)
    ensures k in PageKeys(rows) ==> RowsWithKey(rows, k)[0] == rows[IndexOf(PageKeys(rows), k)]
  {
    if |rows| > 0 {
      var t, r := rows[..|rows| - 1], rows[|rows| - 1];
      assert rows == t + [r];
      RowsWithKeyFirst(t, k);
      RowsWithKeySnoc(t, r, k);
      KeysSnoc(t, r);
      if k in PageKeys(t) {
        IndexOfSnoc(PageKeys(t), PageKey(r), k);
      } else if PageKey(r) == k {
        assert PageKeys(rows)[..|t|] == PageKeys(t);
        assert IndexOf(PageKeys(rows), k) == |t|;
      }
    }
  }

  /** The row an earliest-so-far scan ends on: a later row replaces the current
      one only when its timestamp is strictly smaller. */
  function EarliestOf(s: seq<RevisionRow>): RevisionRow
    requires |s| > 0
  {
    if |s| == 1 then s[0]
    else
      var e, r := EarliestOf(s[..|s| - 1]), s[|s| - 1];
      if Less(r.revTimestamp, e.revTimestamp) then r else e
  }

  /** The row a latest-so-far scan ends on: a later row replaces the current one
      only when its timestamp is strictly greater. */
  function LatestOf(s: seq<RevisionRow>): RevisionRow
    requires |s| > 0
  {
    if |s| == 1 then s[0]
    else
      var e, r := LatestOf(s[..|s| - 1]), s[|s| - 1];
      if Less(e.revTimestamp, r.revTimestamp) then r else e
  }

  /** `s[i]` has the smallest timestamp of `s`, and every row before it a strictly greater one. */
  predicate FirstMinimumAt(s: seq<RevisionRow>, i: int)
  {
    && 0 <= i < |s|
    && (forall j :: 0 <= j < |s| ==> !Less(s[j].revTimestamp, s[i].revTimestamp))
    && (forall j :: 0 <= j < i ==> Less(s[i].revTimestamp, s[j].revTimestamp))
  }

  /** `s[i]` has the greatest timestamp of `s`, and every row before it a strictly smaller one. */
  predicate FirstMaximumAt(s: seq<RevisionRow>, i: int)
  {
    && 0 <= i < |s|
    && (forall j :: 0 <= j < |s| ==> !Less(s[i].revTimestamp, s[j].revTimestamp))
    && (forall j :: 0 <= j < i ==> Less(s[j].revTimestamp, s[i].revTimestamp))
  }

  lemma NewMinimum(t: seq<RevisionRow>, r: RevisionRow, i: int)
    requires FirstMinimumAt(t, i) && Less(r.revTimestamp, t[i].revTimestamp)
    ensures FirstMinimumAt(t + [r], |t|)
  {
    var s, e := t + [r], t[i].revTimestamp;
    forall j | 0 <= j < |t| ensures Less(r.revTimestamp, s[j].revTimestamp) {
      assert s[j] == t[j];
      LessTotal(t[j].revTimestamp, e);
      if t[j].revTimestamp != e {
        LessTransitive(r.revTimestamp, e, t[j].revTimestamp);
      }
    }
    forall j | 0 <= j < |s| ensures !Less(s[j].revTimestamp, r.revTimestamp) {
      if j < |t| {
        LessAsymmetric(r.revTimestamp, s[j].revTimestamp);
      } else {
        LessIrreflexive(r.revTimestamp);
      }
    }
  }

  lemma KeepMinimum(t: seq<RevisionRow>, r: RevisionRow, i: int)
    requires FirstMinimumAt(t, i) && !Less(r.revTimestamp, t[i].revTimestamp)
    ensures FirstMinimumAt(t + [r], i)
  {
    var s := t + [r];
    assert forall j :: 0 <= j < |t| ==> s[j] == t[j];
  }

  lemma NewMaximum(t: seq<RevisionRow>, r: RevisionRow, i: int)
    requires FirstMaximumAt(t, i) && Less(t[i].revTimestamp, r.revTimestamp)
    ensures FirstMaximumAt(t + [r], |t|)
  {
    var s, e := t + [r], t[i].revTimestamp;
    forall j | 0 <= j < |t| ensures Less(s[j].revTimestamp, r.revTimestamp) {
      assert s[j] == t[j];
      LessTotal(t[j].revTimestamp, e);
      if t[j].revTimestamp != e {
        LessTransitive(t[j].revTimestamp, e, r.revTimestamp);
      }
    }
    forall j | 0 <= j < |s| ensures !Less(r.revTimestamp, s[j].revTimestamp) {
      if j < |t| {
        LessAsymmetric(s[j].revTimestamp, r.revTimestamp);
      } else {
        LessIrreflexive(r.revTimestamp);
      }
    }
  }

  lemma KeepMaximum(t: seq<RevisionRow>, r: RevisionRow, i: int)
    requires FirstMaximumAt(t, i) && !Less(t[i].revTimestamp, r.revTimestamp)
    ensures FirstMaximumAt(t + [r], i)
  {
    var s := t + [r];
    assert forall j :: 0 <= j < |t| ==> s[j] == t[j];
  }

  /** The earliest row has the smallest timestamp, and of the rows that share it,
      it is the first: every row before it has a strictly greater timestamp. */
  lemma {:induction false} EarliestIsFirstMinimum(s: seq<RevisionRow>)
    requires |s| > 0
    ensures exists i :: FirstMinimumAt(s, i) && s[i] == EarliestOf(s)
  {
    if |s| == 1 {
      LessIrreflexive(s[0].revTimestamp);
      assert FirstMinimumAt(s, 0);
    } else {
      var t, r := s[..|s| - 1], s[|s| - 1];
      assert s == t + [r];
      EarliestIsFirstMinimum(t);
      var i :| FirstMinimumAt(t, i) && t[i] == EarliestOf(t);
      if Less(r.revTimestamp, t[i].revTimestamp) {
        NewMinimum(t, r, i);
        assert s[|t|] == EarliestOf(s);
      } else {
        KeepMinimum(t, r, i);
        assert s[i] == EarliestOf(s);
      }
    }
  }

  /** The latest row has the greatest timestamp, and of the rows that share it,
      it is the first: every row before it has a strictly smaller timestamp. */
  lemma {:induction false} LatestIsFirstMaximum(s: seq<RevisionRow>)
    requires |s| > 0
    ensures exists i :: FirstMaximumAt(s, i) && s[i] == LatestOf(s)
  {
    if |s| == 1 {
      LessIrreflexive(s[0].revTimestamp);
      assert FirstMaximumAt(s, 0);
    } else {
      var t, r := s[..|s| - 1], s[|s| - 1];
      assert s == t + [r];
      LatestIsFirstMaximum(t);
      var i :| FirstMaximumAt(t, i) && t[i] == LatestOf(t);
      if Less(t[i].revTimestamp, r.revTimestamp) {
        NewMaximum(t, r, i);
        assert s[|t|] == LatestOf(s);
      } else {
        KeepMaximum(t, r, i);
        assert s[i] == LatestOf(s);
      }
    }
  }

  /** The user table a scan of `s` builds: each row adds one to its user key's
      count, a key seen for the first time entering with count one. */
  function UsersOf(s: seq<RevisionRow>): Dict<string, int>
  {
    TallyBy(s, UserKey)
  }

  /** The user table is the tally of the rows' user keys. */
  lemma UsersOfIsTally(s: seq<RevisionRow>)
    ensures UsersOf(s) == Tally(UserKeys(s))
  {
    TallyByIsTally(s, UserKey);
    assert KeysBy(s, UserKey) == UserKeys(s);
  }

  /** The user table lists each user key of `s` once, in order of first
      appearance, with the number of rows that carry it. */
  lemma UsersOfCounts(s: seq<RevisionRow>)
    ensures Valid(UsersOf(s))
    ensures UsersOf(s).keys == Dedup(UserKeys(s))
    ensures forall k :: k in UsersOf(s).entries ==> UsersOf(s).entries[k] == multiset(UserKeys(s))[k]
  {
    UsersOfIsTally(s);
    TallyKeys(UserKeys(s));
    TallyCounts(UserKeys(s));
  }

  /** What the aggregation holds for a page whose rows, in input order, are `s`. */
  datatype PageEntry = PageEntry(
    pageId: int,
    entityId: string,
    earliest: RevisionRow,
    latest: RevisionRow,
    note: string,
    users: Dict<string, int>)

  /** The entry that the rows `s` of one page build. */
  function EntryOf(s: seq<RevisionRow>): PageEntry
    requires |s| > 0
  {
    PageEntry(s[0].revPage, s[0].entityId, EarliestOf(s), LatestOf(s), "", UsersOf(s))
  }

  /** The entry a page's first row creates. */
  lemma EntryOfFirstRow(r: RevisionRow)
    ensures EntryOf([r]) == PageEntry(r.revPage, r.entityId, r, r, "", Dict([UserKey(r)], map[UserKey(r) := 1]))
  {
    assert [r][..0] == [];
    assert [] + [r] == [r];
    TallyBySnoc([], r, UserKey);
    assert [] + [UserKey(r)] == [UserKey(r)];
  }

  lemma EarliestOfSnoc(s: seq<RevisionRow>, r: RevisionRow)
    requires |s| > 0
    ensures EarliestOf(s + [r]) == if Less(r.revTimestamp, EarliestOf(s).revTimestamp) then r else EarliestOf(s)
  {
    assert (s + [r])[..|s|] == s;
  }

  lemma LatestOfSnoc(s: seq<RevisionRow>, r: RevisionRow)
    requires |s| > 0
    ensures LatestOf(s + [r]) == if Less(LatestOf(s).revTimestamp, r.revTimestamp) then r else LatestOf(s)
  {
    assert (s + [r])[..|s|] == s;
  }

  /** What one more row of a page does to the page's entry: the first-row fields
      stay, the earliest and latest are replaced on a strict comparison, and the
      row's user key is counted once more. */
  function Advance(e: PageEntry, r: RevisionRow): PageEntry
  {
    e.(
      earliest := if Less(r.revTimestamp, e.earliest.revTimestamp) then r else e.earliest,
      latest := if Less(e.latest.revTimestamp, r.revTimestamp) then r else e.latest,
      users := Put(e.users, UserKey(r), GetOr(e.users, UserKey(r), 0) + 1))
  }

  /** Advancing the entry of a page's rows by one more row gives the entry of
      the longer sequence of rows. */
  lemma EntryOfNextRow(s: seq<RevisionRow>, r: RevisionRow)
    requires |s| > 0
    ensures EntryOf(s + [r]) == Advance(EntryOf(s), r)
  {
    var e, e' := EntryOf(s), EntryOf(s + [r]);
    assert (s + [r])[0] == s[0];
    EarliestOfSnoc(s, r);
    LatestOfSnoc(s, r);
    TallyBySnoc(s, r, UserKey);
    assert e'.users == Advance(e, r).users;
    assert e'.earliest == Advance(e, r).earliest;
    assert e'.latest == Advance(e, r).latest;
  }

  /** The keys of a user table that the summaries decode. */
  predicate DecodableUsers(d: Dict<string, int>)
  {
    forall i :: 0 <= i < |d.keys| ==> d.keys[i] in d.entries && IsUserKey(d.keys[i])
  }

  lemma UsersOfDecodable(s: seq<RevisionRow>)
    ensures DecodableUsers(UsersOf(s))
  {
    UsersOfCounts(s);
    var d, ks := UsersOf(s), UserKeys(s);
    forall i | 0 <= i < |d.keys| ensures IsUserKey(d.keys[i]) {
      assert d.keys[i] in ks;
      var j :| 0 <= j < |s| && ks[j] == d.keys[i];
      EncodedIsUserKey(s[j].revUser, s[j].revUserText);
    }
  }

  /** The `UserCount` list of a user table: one per key, in key order, with the
      id and name the key encodes and the key's count. */
  function UserCountsFrom(d: Dict<string, int>): (us: seq<UserCount>)
    requires DecodableUsers(d)
    ensures |us| == |d.keys|
    ensures forall n :: 0 <= n < |us| ==>
      EncodeUserKey(us[n].userId, us[n].username) == d.keys[n] && us[n].count == d.entries[d.keys[n]]
  {
    seq(|d.keys|, n requires 0 <= n < |d.keys| =>
      var p := DecodeUserKey(d.keys[n]).value;
      UserCount(p.0, p.1, d.entries[d.keys[n]]))
  }

  /** The summary the second loop builds from an entry. */
  function Summarise(e: PageEntry): Revisions
    requires DecodableUsers(e.users)
  {
    Revisions(e.pageId, e.entityId, ToRevision(e.earliest), ToRevision(e.latest), e.note, UserCountsFrom(e.users))
  }

  /** The summary of a page whose rows, in input order, are `s`. */
  function PageSummary(s: seq<RevisionRow>): Revisions
    requires |s| > 0
  {
    UsersOfDecodable(s);
    Summarise(EntryOf(s))
  }

  /** The result `aggregate` is meant to return: one summary per page key, in order
      of first appearance, each built from the rows with that key. */
  function Aggregation(rows: seq<RevisionRow>): seq<Revisions>
  {
    var ks := Dedup(PageKeys(rows));
    seq(|ks|, n requires 0 <= n < |ks| =>
      RowsWithKeyFirst(rows, ks[n]);
      PageSummary(RowsWithKey(rows, ks[n])))
  }

  // ---------------------------------------------------------------------------
  // The aggregation loop
  // ---------------------------------------------------------------------------

  /** Every entry of the table is the entry of the rows with its key. */
  ghost predicate EntriesMatch(table: Dict<string, PageEntry>, rows: seq<RevisionRow>)
  {
    forall k :: k in table.entries ==> |RowsWithKey(rows, k)| > 0 && table.entries[k] == EntryOf(RowsWithKey(rows, k))
  }

  /** The grouping table after a scan of `rows`: one entry per page key, in order
      of first appearance, each the entry of the rows with that key. */
  ghost predicate Represents(table: Dict<string, PageEntry>, rows: seq<RevisionRow>)
  {
    && table.keys == Dedup(PageKeys(rows))
    && (forall k :: k in table.entries <==> k in table.keys)
    && EntriesMatch(table, rows)
  }

  /** Storing any entry under a row's page key keeps the table's keys those of
      the rows seen, in order of first appearance. */
  lemma KeysStep(table: Dict<string, PageEntry>, rows: seq<RevisionRow>, r: RevisionRow, e: PageEntry)
    requires table.keys == Dedup(PageKeys(rows)) && (forall k :: k in table.entries <==> k in table.keys)
    ensures Put(table, PageKey(r), e).keys == Dedup(PageKeys(rows + [r]))
    ensures forall k :: k in Put(table, PageKey(r), e).entries <==> k in Put(table, PageKey(r), e).keys
  {
    KeysSnoc(rows, r);
    DedupSnoc(PageKeys(rows), PageKey(r));
  }

  /** Storing the entry of the rows of a row's page, that row included, keeps
      every entry the entry of its rows. */
  lemma EntriesStep(table: Dict<string, PageEntry>, rows: seq<RevisionRow>, r: RevisionRow, e: PageEntry)
    requires EntriesMatch(table, rows)
    requires e == EntryOf(RowsWithKey(rows, PageKey(r)) + [r])
    ensures EntriesMatch(Put(table, PageKey(r), e), rows + [r])
  {
    var pk := PageKey(r);
    var table' := Put(table, pk, e);
    forall k | k in table'.entries
      ensures |RowsWithKey(rows + [r], k)| > 0 && table'.entries[k] == EntryOf(RowsWithKey(rows + [r], k))
    {
      RowsWithKeySnoc(rows, r, k);
      if k != pk {
        assert table'.entries[k] == table.entries[k];
      }
    }
  }

  /** A row whose page has not been seen yet adds that page's first entry. */
  lemma NewPageStep(table: Dict<string, PageEntry>, rows: seq<RevisionRow>, r: RevisionRow)
    requires Represents(table, rows) && PageKey(r) !in table.entries
    ensures Represents(Put(table, PageKey(r), EntryOf([r])), rows + [r])
  {
    var pk := PageKey(r);
    RowsWithKeyFirst(rows, pk);
    assert RowsWithKey(rows, pk) + [r] == [r];
    KeysStep(table, rows, r, EntryOf([r]));
    EntriesStep(table, rows, r, EntryOf([r]));
  }

  /** A row of a page already seen replaces that page's entry by the entry of its
      rows with this one appended. */
  lemma SeenPageStep(table: Dict<string, PageEntry>, rows: seq<RevisionRow>, r: RevisionRow)
    requires Represents(table, rows) && PageKey(r) in table.entries
    ensures Represents(Put(table, PageKey(r), EntryOf(RowsWithKey(rows, PageKey(r)) + [r])), rows + [r])
  {
    var e := EntryOf(RowsWithKey(rows, PageKey(r)) + [r]);
    KeysStep(table, rows, r, e);
    EntriesStep(table, rows, r, e);
  }

  /** What the grouping loop does with one row: a new page key enters with the
      row's first entry, a known one has its entry advanced by the row. */
  function GroupStep(table: Dict<string, PageEntry>, r: RevisionRow): Dict<string, PageEntry>
  {
    if PageKey(r) !in table.entries then Put(table, PageKey(r), EntryOf([r]))
    else Put(table, PageKey(r), Advance(table.entries[PageKey(r)], r))
  }

  /** The table the grouping loop has built after the rows `rows`. */
  ghost function Grouping(rows: seq<RevisionRow>): Dict<string, PageEntry>
  {
    if |rows| == 0 then Dict([], map[]) else GroupStep(Grouping(rows[..|rows| - 1]), rows[|rows| - 1])
  }

  lemma GroupingSnoc(rows: seq<RevisionRow>, i: nat)
    requires i < |rows|
    ensures Grouping(rows[..i + 1]) == GroupStep(Grouping(rows[..i]), rows[i])
  {
    assert rows[..i + 1][..i] == rows[..i];
  }

  /** The grouping loop's table holds, for each page key in order of first
      appearance, the entry of the rows with that key. */
  lemma {:induction false} GroupingRepresents(rows: seq<RevisionRow>)
    ensures Represents(Grouping(rows), rows)
  {
    if |rows| > 0 {
      var t, r := rows[..|rows| - 1], rows[|rows| - 1];
      assert rows == t + [r];
      GroupingRepresents(t);
      assert rows[..|t|] == t;
      GroupingSnoc(rows, |t|);
      var table := Grouping(t);
      if PageKey(r) !in table.entries {
        NewPageStep(table, t, r);
      } else {
        EntryOfNextRow(RowsWithKey(t, PageKey(r)), r);
        SeenPageStep(table, t, r);
      }
    }
  }

  /** Every user table of `table` decodes. */
  predicate DecodableTable(table: Dict<string, PageEntry>)
  {
    forall n :: 0 <= n < |table.keys| ==>
      table.keys[n] in table.entries && DecodableUsers(table.entries[table.keys[n]].users)
  }

  /** The summaries of the table's entries in key order, as the second loop appends them. */
  function SummariesOf(table: Dict<string, PageEntry>): seq<Revisions>
    requires DecodableTable(table)
  {
    seq(|table.keys|, n requires 0 <= n < |table.keys| => Summarise(table.entries[table.keys[n]]))
  }

  /** Summarising the grouping loop's table gives the intended aggregation. */
  lemma SummariesOfGrouping(rows: seq<RevisionRow>)
    ensures DecodableTable(Grouping(rows))
    ensures SummariesOf(Grouping(rows)) == Aggregation(rows)
  {
    GroupingRepresents(rows);
    var table := Grouping(rows);
    forall n | 0 <= n < |table.keys|
      ensures table.keys[n] in table.entries && DecodableUsers(table.entries[table.keys[n]].users)
    {
      UsersOfDecodable(RowsWithKey(rows, table.keys[n]));
    }
  }

  /** The body of the grouping loop: a row of a new page creates the page's
      entry; a row of a known page replaces the earliest row if its timestamp is
      strictly smaller, the latest if strictly greater, and counts its user key. */
  method AddRevision(revisionsByPage: Dict<string, PageEntry>, revision: RevisionRow)
    returns (updated: Dict<string, PageEntry>)
    ensures updated == GroupStep(revisionsByPage, revision)
  {
    var pageKey := IntToString(revision.revPage);
    var userKey := EncodeUserKey(revision.revUser, revision.revUserText);
    if pageKey !in revisionsByPage.entries {
      EntryOfFirstRow(revision);
      var entry := PageEntry(revision.revPage, revision.entityId, revision, revision, "", Dict([userKey], map[userKey := 1]));
      updated := Put(revisionsByPage, pageKey, entry);
    } else {
      var page := revisionsByPage.entries[pageKey];
      var earliest, latest := page.earliest, page.latest;
      if Less(revision.revTimestamp, earliest.revTimestamp) {
        earliest := revision;
      }
      if Less(latest.revTimestamp, revision.revTimestamp) {
        latest := revision;
      }
      var users := Put(page.users, userKey, GetOr(page.users, userKey, 0) + 1);
      updated := Put(revisionsByPage, pageKey, page.(earliest := earliest, latest := latest, users := users));
    }
  }

  /** The body of the summary loop: the user table becomes a `UserCount` list in
      key order, the earliest and latest rows become `Revision` records. */
  method SummariseEntry(pageData: PageEntry) returns (summary: Revisions)
    requires DecodableUsers(pageData.users)
    ensures summary == Summarise(pageData)
  {
    var users := UserCountsFrom(pageData.users);
    summary := Revisions(
      pageData.pageId, pageData.entityId, ToRevision(pageData.earliest), ToRevision(pageData.latest),
      pageData.note, users);
  }

  /** `Aggregator.aggregate`: the first loop groups the rows by page key, keeping
      each page's first-row fields, its earliest and latest row and its user
      counts; the second turns each page's entry into a summary, in the order
      the pages first appeared. */
  method Aggregate(revisions: seq<RevisionRow>) returns (result: seq<Revisions>)
    ensures result == Aggregation(revisions)
  {
    var revisionsByPage: Dict<string, PageEntry> := Dict([], map[]);
    var i := 0;
    while i < |revisions|
      invariant 0 <= i <= |revisions|
      invariant revisionsByPage == Grouping(revisions[..i])
    {
      GroupingSnoc(revisions, i);
      revisionsByPage := AddRevision(revisionsByPage, revisions[i]);
      i := i + 1;
    }
    assert revisions[..i] == revisions;
    SummariesOfGrouping(revisions);

    ghost var summaries := SummariesOf(revisionsByPage);
    result := [];
    var pageKeys := revisionsByPage.keys;
    var j := 0;
    while j < |pageKeys|
      invariant 0 <= j <= |pageKeys|
      invariant result == summaries[..j]
    {
      var summary := SummariseEntry(revisionsByPage.entries[pageKeys[j]]);
      PrefixSnoc(summaries, j);
      result := result + [summary];
      j := j + 1;
    }
    assert result == summaries;
  }

  // ---------------------------------------------------------------------------
  // What the aggregation promises
  // ---------------------------------------------------------------------------

  /** The rows filed under a page's key are exactly that page's rows. */
  lemma {:induction false} RowsWithKeyOfPage(rows: seq<RevisionRow>, p: int)
    ensures forall x :: x in RowsWithKey(rows, IntToString(p)) <==> x in rows && x.revPage == p
  {
    if |rows| > 0 {
      var t, r := rows[..|rows| - 1], rows[|rows| - 1];
      assert rows == t + [r];
      RowsWithKeyOfPage(t, p);
      RowsWithKeySnoc(t, r, IntToString(p));
      IntToStringInjective(r.revPage, p);
    }
  }

  /** The `n`-th summary is the summary of the rows of the `n`-th page key in
      order of first appearance, and its page id is the one that key was made from. */
  lemma AggregationAt(rows: seq<RevisionRow>, n: nat)
    requires n < |Aggregation(rows)|
    ensures |Aggregation(rows)| == |Dedup(PageKeys(rows))|
    ensures Dedup(PageKeys(rows))[n] in PageKeys(rows)
    ensures IntToString(Aggregation(rows)[n].pageId) == Dedup(PageKeys(rows))[n]
    ensures |PageRows(rows, Aggregation(rows)[n].pageId)| > 0
    ensures Aggregation(rows)[n] == PageSummary(PageRows(rows, Aggregation(rows)[n].pageId))
  {
    var ks := Dedup(PageKeys(rows));
    RowsWithKeyFirst(rows, ks[n]);
    var i := IndexOf(PageKeys(rows), ks[n]);
    assert Aggregation(rows)[n].pageId == rows[i].revPage;
  }

  /** The rows of page `p`, in input order. */
  function PageRows(rows: seq<RevisionRow>, p: int): seq<RevisionRow>
  {
    RowsWithKey(rows, IntToString(p))
  }

  /** The rows of a page are exactly the input rows on that page. */
  lemma PageRowsOfPage(rows: seq<RevisionRow>, p: int)
    ensures forall x :: x in PageRows(rows, p) <==> x in rows && x.revPage == p
  {
    RowsWithKeyOfPage(rows, p);
  }

  /** `rows[i]` is the first row of page `p`. */
  predicate FirstRowOfPage(rows: seq<RevisionRow>, i: int, p: int)
  {
    0 <= i < |rows| && rows[i].revPage == p && forall j :: 0 <= j < i ==> rows[j].revPage != p
  }

  /** A summary's page id, entity id and note are those its page's first row set. */
  lemma AggregationFirstRowFields(rows: seq<RevisionRow>, n: nat)
    requires n < |Aggregation(rows)|
    ensures exists i :: FirstRowOfPage(rows, i, Aggregation(rows)[n].pageId) && Aggregation(rows)[n].entityId == rows[i].entityId
    ensures Aggregation(rows)[n].note == ""
  {
    AggregationAt(rows, n);
    var a, ks := Aggregation(rows), Dedup(PageKeys(rows));
    RowsWithKeyFirst(rows, ks[n]);
    var i := IndexOf(PageKeys(rows), ks[n]);
    assert a[n].entityId == rows[i].entityId;
    forall j | 0 <= j < i ensures rows[j].revPage != a[n].pageId {
      assert PageKeys(rows)[..i][j] == PageKey(rows[j]);
    }
    assert FirstRowOfPage(rows, i, a[n].pageId);
  }

  /** The aggregation is empty exactly when there are no rows. */
  lemma AggregationEmpty(rows: seq<RevisionRow>)
    ensures |Aggregation(rows)| == 0 <==> |rows| == 0
  {
    if |rows| > 0 {
      assert PageKeys(rows)[0] in Dedup(PageKeys(rows));
    }
  }

  /** No two summaries are for the same page. */
  lemma AggregationDistinctPages(rows: seq<RevisionRow>)
    ensures forall n, m :: 0 <= n < m < |Aggregation(rows)| ==> Aggregation(rows)[n].pageId != Aggregation(rows)[m].pageId
  {
    var a := Aggregation(rows);
    forall n, m | 0 <= n < m < |a| ensures a[n].pageId != a[m].pageId {
      AggregationAt(rows, n);
      AggregationAt(rows, m);
    }
  }

  /** Every page of the input has a summary, and every summary is for a page of the input. */
  lemma AggregationCoversPages(rows: seq<RevisionRow>)
    ensures forall i :: 0 <= i < |rows| ==> exists n :: 0 <= n < |Aggregation(rows)| && Aggregation(rows)[n].pageId == rows[i].revPage
    ensures forall n :: 0 <= n < |Aggregation(rows)| ==> exists i :: 0 <= i < |rows| && rows[i].revPage == Aggregation(rows)[n].pageId
  {
    var a, ks := Aggregation(rows), Dedup(PageKeys(rows));
    forall i | 0 <= i < |rows| ensures exists n :: 0 <= n < |a| && a[n].pageId == rows[i].revPage {
      assert PageKeys(rows)[i] in ks;
      var n :| 0 <= n < |ks| && ks[n] == PageKeys(rows)[i];
      AggregationAt(rows, n);
      IntToStringInjective(a[n].pageId, rows[i].revPage);
    }
    forall n | 0 <= n < |a| ensures exists i :: 0 <= i < |rows| && rows[i].revPage == a[n].pageId {
      AggregationFirstRowFields(rows, n);
    }
  }

  /** When one summary comes before another, every row of the later summary's
      page is preceded by some row of the earlier summary's page. */
  lemma AggregationOrder(rows: seq<RevisionRow>, n: nat, m: nat)
    requires n < m < |Aggregation(rows)|
    ensures forall j :: 0 <= j < |rows| && rows[j].revPage == Aggregation(rows)[m].pageId ==>
      exists i :: 0 <= i < j && rows[i].revPage == Aggregation(rows)[n].pageId
  {
    var a, pks := Aggregation(rows), PageKeys(rows);
    var ks := Dedup(pks);
    AggregationAt(rows, n);
    AggregationAt(rows, m);
    DedupFirstOccurrenceOrder(pks, n, m);
    var i0, i1 := IndexOf(pks, ks[n]), IndexOf(pks, ks[m]);
    IntToStringInjective(rows[i0].revPage, a[n].pageId);
    forall j | 0 <= j < |rows| && rows[j].revPage == a[m].pageId
      ensures exists i :: 0 <= i < j && rows[i].revPage == a[n].pageId
    {
      assert pks[j] == ks[m];
    }
  }

  /** The `(rev_user, rev_user_text)` pair of a row. */
  function UserPair(r: RevisionRow): (int, string)
  {
    (r.revUser, r.revUserText)
  }

  /** The user pair of every row, in row order. */
  function UserPairs(s: seq<RevisionRow>): seq<(int, string)>
  {
    seq(|s|, i requires 0 <= i < |s| => UserPair(s[i]))
  }

  lemma PairsSnoc(s: seq<RevisionRow>, r: RevisionRow)
    ensures UserPairs(s + [r]) == UserPairs(s) + [UserPair(r)]
  {
  }

  /** Counting rows by user key is counting them by user pair. */
  lemma {:induction false} UserKeyOccurrences(s: seq<RevisionRow>, id: int, name: string)
    ensures multiset(UserKeys(s))[EncodeUserKey(id, name)] == multiset(UserPairs(s))[(id, name)]
  {
    if |s| > 0 {
      var t, r := s[..|s| - 1], s[|s| - 1];
      assert s == t + [r];
      UserKeyOccurrences(t, id, name);
      KeysSnoc(t, r);
      PairsSnoc(t, r);
      EncodeUserKeyInjective(r.revUser, r.revUserText, id, name);
    }
  }

  /** The user pair of a count. */
  function CountPair(u: UserCount): (int, string)
  {
    (u.userId, u.username)
  }

  /** In a page's summary each user's count is the number of the page's rows
      carrying that user's id and name, which is at least one. */
  lemma SummaryUserCounts(s: seq<RevisionRow>)
    requires |s| > 0
    ensures forall q :: 0 <= q < |PageSummary(s).users| ==>
      PageSummary(s).users[q].count == multiset(UserPairs(s))[CountPair(PageSummary(s).users[q])] > 0
  {
    UsersOfCounts(s);
    var us, d := PageSummary(s).users, UsersOf(s);
    forall q | 0 <= q < |us|
      ensures us[q].count == multiset(UserPairs(s))[CountPair(us[q])] > 0
    {
      UserKeyOccurrences(s, us[q].userId, us[q].username);
      assert d.keys[q] in UserKeys(s);
    }
  }

  /** A page's summary lists each user at most once, and every user with a row
      on the page. */
  lemma SummaryUsersDistinctAndComplete(s: seq<RevisionRow>)
    requires |s| > 0
    ensures forall q, q' :: 0 <= q < q' < |PageSummary(s).users| ==>
      CountPair(PageSummary(s).users[q]) != CountPair(PageSummary(s).users[q'])
    ensures forall x :: x in s ==> exists q :: 0 <= q < |PageSummary(s).users| && CountPair(PageSummary(s).users[q]) == UserPair(x)
  {
    UsersOfCounts(s);
    var us, d := PageSummary(s).users, UsersOf(s);
    forall q, q' | 0 <= q < q' < |us| ensures CountPair(us[q]) != CountPair(us[q']) {
      EncodeUserKeyInjective(us[q].userId, us[q].username, us[q'].userId, us[q'].username);
    }
    forall x | x in s ensures exists q :: 0 <= q < |us| && CountPair(us[q]) == UserPair(x) {
      var j :| 0 <= j < |s| && s[j] == x;
      assert UserKeys(s)[j] == UserKey(x);
      assert UserKey(x) in d.keys;
      var q :| 0 <= q < |d.keys| && d.keys[q] == UserKey(x);
      EncodeUserKeyInjective(us[q].userId, us[q].username, x.revUser, x.revUserText);
    }
  }

  /** A page summary's earliest revision is the first of the page's rows with the
      smallest timestamp, and its latest the first with the greatest. */
  lemma SummaryTimestamps(s: seq<RevisionRow>)
    requires |s| > 0
    ensures exists i :: FirstMinimumAt(s, i) && PageSummary(s).earliest == ToRevision(s[i])
    ensures exists i :: FirstMaximumAt(s, i) && PageSummary(s).latest == ToRevision(s[i])
  {
    EarliestIsFirstMinimum(s);
    LatestIsFirstMaximum(s);
  }

  /** The sum of the counts of a list of user counts. */
  function TotalCount(us: seq<UserCount>): int
  {
    if |us| == 0 then 0 else TotalCount(us[..|us| - 1]) + us[|us| - 1].count
  }

  lemma {:induction false} TotalCountIsSumCounts(us: seq<UserCount>, ks: seq<string>, m: multiset<string>)
    requires |us| == |ks|
    requires forall n :: 0 <= n < |us| ==> us[n].count == m[ks[n]]
    ensures TotalCount(us) == SumCounts(ks, m)
  {
    if |us| > 0 {
      TotalCountIsSumCounts(us[..|us| - 1], ks[..|ks| - 1], m);
    }
  }

  /** The counts in a page's summary add up to the number of the page's rows. */
  lemma SummaryTotalCount(s: seq<RevisionRow>)
    requires |s| > 0
    ensures TotalCount(PageSummary(s).users) == |s|
  {
    UsersOfCounts(s);
    var us, d, m := PageSummary(s).users, UsersOf(s), multiset(UserKeys(s));
    forall n | 0 <= n < |us| ensures us[n].count == m[d.keys[n]] {
      assert d.keys[n] in d.entries;
    }
    TotalCountIsSumCounts(us, d.keys, m);
    SumCountsOfDedup(UserKeys(s));
  }

  /** A page's summary lists its users in the order of their first rows: every
      row of a later-listed user comes after some row of an earlier-listed one. */
  lemma SummaryUsersOrder(s: seq<RevisionRow>, q: nat, q': nat)
    requires |s| > 0
    requires q < q' < |PageSummary(s).users|
    ensures forall j :: 0 <= j < |s| && UserPair(s[j]) == CountPair(PageSummary(s).users[q']) ==>
      exists i :: 0 <= i < j && UserPair(s[i]) == CountPair(PageSummary(s).users[q])
  {
    UsersOfCounts(s);
    var us, d, uks := PageSummary(s).users, UsersOf(s), UserKeys(s);
    DedupFirstOccurrenceOrder(uks, q, q');
    var i0, i1 := IndexOf(uks, d.keys[q]), IndexOf(uks, d.keys[q']);
    assert uks[i0] == UserKey(s[i0]);
    EncodeUserKeyInjective(s[i0].revUser, s[i0].revUserText, us[q].userId, us[q].username);
    assert UserPair(s[i0]) == CountPair(us[q]);
    forall j | 0 <= j < |s| && UserPair(s[j]) == CountPair(us[q'])
      ensures exists i :: 0 <= i < j && UserPair(s[i]) == CountPair(us[q])
    {
      assert uks[j] == UserKey(s[j]) == d.keys[q'];
      assert i1 <= j;
    }
  }
}
