/**
 * The app-side cache queries: getCacheEntries walks the `lastUpdated` index of
 * "cached-indexes" from the newest record down, keeping the records of one section and
 * share context, a page at a time; getCacheEntriesFromGroup looks a group's files up in
 * the cache, sorts the ones it finds by time and pages through them by offset.
 *
 * The `lastUpdated` index is a sequence of record ids in the order a "prev" cursor visits
 * them, and the cursor is a position in that sequence.
 */
module CacheQueries {
  import opened Wrappers
  import opened JsValues
  import opened Dicts
  import opened Indexes
  import opened Addressing
  import opened CacheStore
  import opened Messages

  // ---- the lastUpdated index ----

  /** A cursor position in the `lastUpdated` index: the index key and the record's primary key. */
  datatype IndexKey = IndexKey(key: int, primaryKey: Id)

  /** The order of index positions: by key, then by primary key. */
  predicate KeyLess(a: IndexKey, b: IndexKey)
  {
    a.key < b.key || (a.key == b.key && StrLess(a.primaryKey, b.primaryKey))
  }

  predicate AtOrBelow(a: IndexKey, b: IndexKey)
  {
    KeyLess(a, b) || a == b
  }

  /** Every id of `ids` names a record that the `lastUpdated` index holds. */
  predicate Indexed(entries: map<Id, CacheEntry>, ids: seq<Id>)
  {
    forall i :: 0 <= i < |ids| ==> ids[i] in entries && entries[ids[i]].lastUpdated.Some?
  }

  function KeyOf(entries: map<Id, CacheEntry>, id: Id): IndexKey
    requires id in entries && entries[id].lastUpdated.Some?
  {
    IndexKey(entries[id].lastUpdated.value, id)
  }

  /**
   * `ids` is the `lastUpdated` index as a "prev" cursor visits it: each record that has a
   * lastUpdated, in strictly descending order of position.
   */
  predicate IsPrevOrder(entries: map<Id, CacheEntry>, ids: seq<Id>)
  {
    Indexed(entries, ids) &&
    (forall id :: id in entries && entries[id].lastUpdated.Some? ==> id in ids) &&
    Descending(entries, ids)
  }

  /** Strictly descending index order. */
  predicate Descending(entries: map<Id, CacheEntry>, ids: seq<Id>)
    requires Indexed(entries, ids)
  {
    forall i, j :: 0 <= i < j < |ids| ==> KeyLess(KeyOf(entries, ids[j]), KeyOf(entries, ids[i]))
  }

  /** Position order is strict: an earlier position is never at or below a later one. */
  lemma EarlierIsAbove(entries: map<Id, CacheEntry>, ids: seq<Id>, i: nat, j: nat)
    requires IsPrevOrder(entries, ids) && i < j < |ids|
    ensures !AtOrBelow(KeyOf(entries, ids[i]), KeyOf(entries, ids[j]))
  {
    var a := KeyOf(entries, ids[i]);
    var b := KeyOf(entries, ids[j]);
    assert KeyLess(b, a);
    if a.key == b.key {
      StrLessAsymmetric(b.primaryKey, a.primaryKey);
      if a == b {
        StrLessIrreflexive(a.primaryKey);
      }
    }
  }

  // ---- the match test ----

  /** What one query looks for: the principal's public key, the resource type and the share names. */
  datatype Criteria = Criteria(publicKey: string, fileType: string, shareNames: Option<seq<string>>)

  /** shareLookup: the lower-cased share names, filled only for a non-empty array. */
  function ShareLookup(shareNames: Option<seq<string>>): (r: set<string>)
    ensures shareNames.Some? && |shareNames.value| > 0 ==>
      forall x :: x in shareNames.value ==> ToLower(x) in r
    ensures forall y :: y in r ==> shareNames.Some? && exists x :: x in shareNames.value && y == ToLower(x)
  {
    if shareNames.Some? && |shareNames.value| > 0 then set x | x in shareNames.value :: ToLower(x) else {}
  }

  /**
   * isMatchCriteria: truthy data, the section of the principal's type, and the share
   * context: without share names only records without a share name; with share names
   * (even an empty array) only records whose share name, as stored, is in shareLookup.
   */
  predicate IsMatch(e: CacheEntry, c: Criteria)
  {
    e.data != "" && e.section == Section(c.publicKey, c.fileType) &&
    if c.shareNames.None? then !TruthyStr(e.shareName)
    else TruthyStr(e.shareName) && e.shareName.value in ShareLookup(c.shareNames)
  }

  /** An empty share-name array is truthy but fills no lookup, so nothing matches. */
  lemma EmptyShareNamesMatchNothing(e: CacheEntry, c: Criteria)
    requires c.shareNames == Some([])
    ensures !IsMatch(e, c)
  {
  }

  /**
   * The lookup holds lower-cased names but is probed with the stored share name, so a
   * stored name with an upper-case letter never matches.
   */
  lemma UpperCaseShareNameNeverMatches(e: CacheEntry, c: Criteria)
    requires c.shareNames.Some?
    requires e.shareName.Some? && ToLower(e.shareName.value) != e.shareName.value
    ensures !IsMatch(e, c)
  {
    if e.shareName.value in ShareLookup(c.shareNames) {
      var x :| x in c.shareNames.value && e.shareName.value == ToLower(x);
      ToLowerIdempotent(x);
    }
  }

  /** The ids at positions lo..hi of `ids` that match, in cursor order. */
  function Matches(entries: map<Id, CacheEntry>, ids: seq<Id>, c: Criteria, lo: nat, hi: nat): (m: seq<Id>)
    requires Indexed(entries, ids) && lo <= hi <= |ids|
    ensures Indexed(entries, m) && |m| <= hi - lo
    decreases hi
  {
    if lo == hi then []
    else Matches(entries, ids, c, lo, hi - 1) + (if IsMatch(entries[ids[hi - 1]], c) then [ids[hi - 1]] else [])
  }

  lemma {:induction false} MatchesMembers(entries: map<Id, CacheEntry>, ids: seq<Id>, c: Criteria,
                                          lo: nat, hi: nat, x: Id)
    requires Indexed(entries, ids) && lo <= hi <= |ids|
    ensures x in Matches(entries, ids, c, lo, hi) <==>
      (exists p :: lo <= p < hi && ids[p] == x) && IsMatch(entries[x], c)
    decreases hi
  {
    if lo < hi {
      MatchesMembers(entries, ids, c, lo, hi - 1, x);
      if ids[hi - 1] == x {
        assert lo <= hi - 1 < hi && ids[hi - 1] == x;
      }
      // a witness below hi - 1 is also a witness below hi, and conversely
      if exists p :: lo <= p < hi && ids[p] == x {
        var p :| lo <= p < hi && ids[p] == x;
        if p < hi - 1 {
          assert exists p' :: lo <= p' < hi - 1 && ids[p'] == x;
        }
      }
    }
  }

  /** The last match of a range comes from the range's last positions, so a match list splits at any point. */
  lemma {:induction false} MatchesConcat(entries: map<Id, CacheEntry>, ids: seq<Id>, c: Criteria,
                                         lo: nat, mid: nat, hi: nat)
    requires Indexed(entries, ids) && lo <= mid <= hi <= |ids|
    ensures Matches(entries, ids, c, lo, hi) == Matches(entries, ids, c, lo, mid) + Matches(entries, ids, c, mid, hi)
    decreases hi
  {
    if mid < hi {
      MatchesConcat(entries, ids, c, lo, mid, hi - 1);
    }
  }

  lemma {:induction false} MatchesDescending(entries: map<Id, CacheEntry>, ids: seq<Id>, c: Criteria,
                                             lo: nat, hi: nat)
    requires IsPrevOrder(entries, ids) && lo <= hi <= |ids|
    ensures Descending(entries, Matches(entries, ids, c, lo, hi))
    decreases hi
  {
    if lo < hi {
      MatchesDescending(entries, ids, c, lo, hi - 1);
      var mi := Matches(entries, ids, c, lo, hi - 1);
      var last := ids[hi - 1];
      var m := Matches(entries, ids, c, lo, hi);
      forall i, j | 0 <= i < j < |m|
        ensures KeyLess(KeyOf(entries, m[j]), KeyOf(entries, m[i]))
      {
        assert m[i] == mi[i];
        if j == |mi| {
          assert m[j] == last;
          MatchesMembers(entries, ids, c, lo, hi - 1, mi[i]);
          var p :| lo <= p < hi - 1 && ids[p] == mi[i];
          assert KeyLess(KeyOf(entries, ids[hi - 1]), KeyOf(entries, ids[p]));
        } else {
          assert m[j] == mi[j];
          assert KeyLess(KeyOf(entries, mi[j]), KeyOf(entries, mi[i]));
        }
      }
    }
  }

  /** The k-th match sits at some position q, and the matches before q are the first k. */
  lemma {:induction false} MatchesPosition(entries: map<Id, CacheEntry>, ids: seq<Id>, c: Criteria,
                                           lo: nat, hi: nat, k: nat) returns (q: nat)
    requires Indexed(entries, ids) && lo <= hi <= |ids| && k < |Matches(entries, ids, c, lo, hi)|
    ensures lo <= q < hi && ids[q] == Matches(entries, ids, c, lo, hi)[k]
    ensures Matches(entries, ids, c, lo, q) == Matches(entries, ids, c, lo, hi)[..k]
    decreases hi
  {
    var mi := Matches(entries, ids, c, lo, hi - 1);
    if k < |mi| {
      q := MatchesPosition(entries, ids, c, lo, hi - 1, k);
    } else {
      q := hi - 1;
    }
  }

  // ---- pages ----

  /** One entry of a page: the record's fields plus its cursor key and primary key. */
  datatype Listed = Listed(data: string, section: string, key: int, primaryKey: Id, lastUpdated: Option<int>)

  /** The continuation fields of a previous page (nextKey is a lastUpdated, nextPrimaryKey an id). */
  datatype Continuation = Continuation(nextKey: Option<int>, nextPrimaryKey: Option<Id>)

  datatype Page = Page(cacheEntries: seq<Listed>, nextKey: Option<int>, nextPrimaryKey: Option<Id>)

  function ListedOf(entries: map<Id, CacheEntry>, id: Id): Listed
    requires id in entries && entries[id].lastUpdated.Some?
  {
    var e := entries[id];
    Listed(e.data, e.section, e.lastUpdated.value, id, e.lastUpdated)
  }

  function ListOf(entries: map<Id, CacheEntry>, m: seq<Id>): (r: seq<Listed>)
    requires Indexed(entries, m)
    ensures |r| == |m| && forall i :: 0 <= i < |m| ==> r[i] == ListedOf(entries, m[i])
  {
    if m == [] then [] else ListOf(entries, m[..|m| - 1]) + [ListedOf(entries, m[|m| - 1])]
  }

  /** The page size: `count >= max` is checked after a push, so a max below 1 still yields one entry. */
  function CapOf(max: int): nat
  {
    if max < 1 then 1 else max
  }

  /** The page a scan yields from the matching records it meets, in order. */
  function PageOfMatches(entries: map<Id, CacheEntry>, m: seq<Id>, max: Option<int>): Page
    requires Indexed(entries, m)
  {
    if max.Some? && |m| > CapOf(max.value) then
      var k := CapOf(max.value);
      Page(ListOf(entries, m[..k]), Some(entries[m[k]].lastUpdated.value), Some(m[k]))
    else Page(ListOf(entries, m), None, None)
  }

  /** The page of a scan starting at cursor position `start`. */
  function PageAt(entries: map<Id, CacheEntry>, ids: seq<Id>, c: Criteria, max: Option<int>, start: nat): Page
    requires Indexed(entries, ids) && start <= |ids|
  {
    PageOfMatches(entries, Matches(entries, ids, c, start, |ids|), max)
  }

  /** The first position at or after `from` that is at or below `t`, or the end. */
  function ContinueAt(entries: map<Id, CacheEntry>, ids: seq<Id>, t: IndexKey, from: nat): (r: nat)
    requires Indexed(entries, ids) && from <= |ids|
    ensures from <= r <= |ids|
    decreases |ids| - from
  {
    if from == |ids| || AtOrBelow(KeyOf(entries, ids[from]), t) then from
    else ContinueAt(entries, ids, t, from + 1)
  }

  /**
   * Where the scan starts: at the newest record, unless a previous page's nextKey and
   * nextPrimaryKey are both truthy and the index is not empty; then continuePrimaryKey
   * moves to the first later position at or below them, and rejects (None) a target at
   * or above the cursor's first position.
   */
  function StartOf(entries: map<Id, CacheEntry>, ids: seq<Id>, cont: Option<Continuation>): (r: Option<nat>)
    requires Indexed(entries, ids)
    ensures r.Some? ==> r.value <= |ids|
  {
    if |ids| > 0 && cont.Some? && TruthyNum(cont.value.nextKey) && TruthyStr(cont.value.nextPrimaryKey) then
      var t := IndexKey(cont.value.nextKey.value, cont.value.nextPrimaryKey.value);
      if AtOrBelow(KeyOf(entries, ids[0]), t) then None else Some(ContinueAt(entries, ids, t, 1))
    else Some(0)
  }

  /** getCacheEntries: the page, or None where continuePrimaryKey rejects. */
  function CacheEntriesPage(entries: map<Id, CacheEntry>, ids: seq<Id>, c: Criteria, max: Option<int>,
                            cont: Option<Continuation>): Option<Page>
    requires Indexed(entries, ids)
  {
    var s := StartOf(entries, ids, cont);
    if s.None? then None else Some(PageAt(entries, ids, c, max, s.value))
  }

  // ---- the cursor loops ----

  /** continuePrimaryKey: walk from the second position to the first one at or below `t`. */
  method Seek(entries: map<Id, CacheEntry>, ids: seq<Id>, t: IndexKey) returns (pos: nat)
    requires Indexed(entries, ids) && |ids| > 0
    ensures pos == ContinueAt(entries, ids, t, 1)
  {
    pos := 1;
    while pos < |ids| && !AtOrBelow(KeyOf(entries, ids[pos]), t)
      invariant 1 <= pos <= |ids|
      invariant ContinueAt(entries, ids, t, pos) == ContinueAt(entries, ids, t, 1)
      decreases |ids| - pos
    {
      pos := pos + 1;
    }
  }

  /** The inner loop after a full page: continue until the next match or the end. */
  method FindMatch(entries: map<Id, CacheEntry>, ids: seq<Id>, c: Criteria, from: nat) returns (pos: nat)
    requires Indexed(entries, ids) && from <= |ids|
    ensures from <= pos <= |ids| && Matches(entries, ids, c, from, pos) == []
    ensures pos < |ids| ==> IsMatch(entries[ids[pos]], c)
  {
    pos := from;
    while pos < |ids| && !IsMatch(entries[ids[pos]], c)
      invariant from <= pos <= |ids| && Matches(entries, ids, c, from, pos) == []
      decreases |ids| - pos
    {
      pos := pos + 1;
    }
  }

  /** The matches of a scan that filled its page at `mid` and met its next match at `next`. */
  lemma ScanTail(entries: map<Id, CacheEntry>, ids: seq<Id>, c: Criteria, start: nat, mid: nat, next: nat)
    requires Indexed(entries, ids) && start <= mid <= next <= |ids|
    requires Matches(entries, ids, c, mid, next) == []
    requires next < |ids| ==> IsMatch(entries[ids[next]], c)
    ensures Matches(entries, ids, c, start, |ids|)
         == Matches(entries, ids, c, start, mid) + Matches(entries, ids, c, next, |ids|)
    ensures next < |ids| ==>
      Matches(entries, ids, c, next, |ids|) == [ids[next]] + Matches(entries, ids, c, next + 1, |ids|)
  {
    MatchesConcat(entries, ids, c, start, mid, next);
    MatchesConcat(entries, ids, c, start, next, |ids|);
    assert Matches(entries, ids, c, start, mid) + [] == Matches(entries, ids, c, start, mid);
    if next < |ids| {
      MatchesConcat(entries, ids, c, next, next + 1, |ids|);
      assert Matches(entries, ids, c, next, next) == [];
      assert Matches(entries, ids, c, next, next + 1) == [ids[next]];
    }
  }

  /** One cursor step extends the listed matches by the record under the cursor, if it matches. */
  lemma ListOfSnoc(entries: map<Id, CacheEntry>, m: seq<Id>, x: Id)
    requires Indexed(entries, m) && x in entries && entries[x].lastUpdated.Some?
    ensures Indexed(entries, m + [x])
    ensures ListOf(entries, m + [x]) == ListOf(entries, m) + [ListedOf(entries, x)]
  {
    assert (m + [x])[..|m|] == m;
  }

  /** A full page at `mid`: look for the next match and record it as the continuation. */
  method FinishPage(entries: map<Id, CacheEntry>, ids: seq<Id>, c: Criteria, max: Option<int>, start: nat,
                    mid: nat, listed: seq<Listed>) returns (p: Page)
    requires Indexed(entries, ids) && start <= mid <= |ids| && max.Some?
    requires listed == ListOf(entries, Matches(entries, ids, c, start, mid))
    requires |listed| == CapOf(max.value)
    ensures p == PageAt(entries, ids, c, max, start)
  {
    var next := FindMatch(entries, ids, c, mid);
    ScanTail(entries, ids, c, start, mid, next);
    ghost var pre := Matches(entries, ids, c, start, mid);
    ghost var m := Matches(entries, ids, c, start, |ids|);
    assert m[..|pre|] == pre;
    if next < |ids| {
      assert m[|pre|] == ids[next];
      p := Page(listed, Some(entries[ids[next]].lastUpdated.value), Some(ids[next]));
    } else {
      assert m == pre;
      p := Page(listed, None, None);
    }
  }

  /** The main cursor loop from `start`: push matches until the page is full. */
  method Scan(entries: map<Id, CacheEntry>, ids: seq<Id>, c: Criteria, max: Option<int>, start: nat)
    returns (p: Page)
    requires Indexed(entries, ids) && start <= |ids|
    ensures p == PageAt(entries, ids, c, max, start)
  {
    var cursor := start;
    var listed: seq<Listed> := [];
    var count := 0;
    ghost var m: seq<Id> := [];
    while cursor < |ids|
      invariant start <= cursor <= |ids|
      invariant m == Matches(entries, ids, c, start, cursor)
      invariant listed == ListOf(entries, m)
      invariant count == |m|
      invariant max.Some? ==> count < CapOf(max.value)
      decreases |ids| - cursor
    {
      var id := ids[cursor];
      if IsMatch(entries[id], c) {
        ListOfSnoc(entries, m, id);
        listed := listed + [ListedOf(entries, id)];
        m := m + [id];
        count := count + 1;
        if max.Some? && count >= max.value {
          p := FinishPage(entries, ids, c, max, start, cursor + 1, listed);
          return;
        }
      } else {
        assert m + [] == m;
      }
      cursor := cursor + 1;
    }
    p := Page(listed, None, None);
  }

  /**
   * getCacheEntries: open a "prev" cursor on the `lastUpdated` index, continue past the
   * previous page if its keys are truthy, then scan; None where continuePrimaryKey rejects.
   */
  method GetCacheEntries(entries: map<Id, CacheEntry>, ids: seq<Id>, c: Criteria, max: Option<int>,
                         cont: Option<Continuation>) returns (r: Option<Page>)
    requires IsPrevOrder(entries, ids)
    ensures r == CacheEntriesPage(entries, ids, c, max, cont)
  {
    var start := 0;
    if |ids| > 0 && cont.Some? && TruthyNum(cont.value.nextKey) && TruthyStr(cont.value.nextPrimaryKey) {
      var t := IndexKey(cont.value.nextKey.value, cont.value.nextPrimaryKey.value);
      if AtOrBelow(KeyOf(entries, ids[0]), t) {
        return None;
      }
      start := Seek(entries, ids, t);
    }
    var p := Scan(entries, ids, c, max, start);
    r := Some(p);
  }

  // ---- what a page promises ----

  /**
   * A page holds at most max (at least one) entries, each a matching record listed with
   * its own fields, in strictly descending index order; it carries a continuation exactly
   * when a further matching record exists, and then the continuation is that record.
   */
  lemma PageContents(entries: map<Id, CacheEntry>, ids: seq<Id>, c: Criteria, max: Option<int>, start: nat)
    requires IsPrevOrder(entries, ids) && start <= |ids|
    ensures var p := PageAt(entries, ids, c, max, start);
      var m := Matches(entries, ids, c, start, |ids|);
      var n := |p.cacheEntries|;
      (max.Some? ==> n <= CapOf(max.value)) &&
      (forall i :: 0 <= i < n ==>
         var id := p.cacheEntries[i].primaryKey;
         id in entries && entries[id].lastUpdated.Some? && IsMatch(entries[id], c) &&
         p.cacheEntries[i] == ListedOf(entries, id)) &&
      (forall i, j :: 0 <= i < j < n ==>
         KeyLess(IndexKey(p.cacheEntries[j].key, p.cacheEntries[j].primaryKey),
                 IndexKey(p.cacheEntries[i].key, p.cacheEntries[i].primaryKey))) &&
      (p.nextKey.Some? <==> |m| > n) &&
      (p.nextKey.Some? ==>
         p.nextPrimaryKey == Some(m[n]) && p.nextKey == entries[m[n]].lastUpdated) &&
      p.cacheEntries == ListOf(entries, m[..n])
  {
    MatchesDescending(entries, ids, c, start, |ids|);
    var m := Matches(entries, ids, c, start, |ids|);
    var p := PageAt(entries, ids, c, max, start);
    var n := if max.Some? && |m| > CapOf(max.value) then CapOf(max.value) else |m|;
    assert m[..|m|] == m;
    assert p.cacheEntries == ListOf(entries, m[..n]);
    forall i | 0 <= i < |m|
      ensures IsMatch(entries[m[i]], c)
    {
      MatchesMembers(entries, ids, c, start, |ids|, m[i]);
    }
    forall i | 0 <= i < n
      ensures p.cacheEntries[i] == ListedOf(entries, m[i]) && p.cacheEntries[i].primaryKey == m[i]
    {
      assert m[..n][i] == m[i];
    }
    forall i, j | 0 <= i < j < n
      ensures KeyLess(IndexKey(p.cacheEntries[j].key, p.cacheEntries[j].primaryKey),
                      IndexKey(p.cacheEntries[i].key, p.cacheEntries[i].primaryKey))
    {
      assert KeyLess(KeyOf(entries, m[j]), KeyOf(entries, m[i]));
    }
  }

  /** Without a page size or continuation, the query lists exactly the matching indexed records. */
  lemma FullScanListsAllMatches(entries: map<Id, CacheEntry>, ids: seq<Id>, c: Criteria, id: Id)
    requires IsPrevOrder(entries, ids)
    ensures var r := CacheEntriesPage(entries, ids, c, None, None);
      r.Some? && r.value.nextKey.None? &&
      ((exists i :: 0 <= i < |r.value.cacheEntries| && r.value.cacheEntries[i].primaryKey == id) <==>
       id in entries && entries[id].lastUpdated.Some? && IsMatch(entries[id], c))
  {
    MatchesMembers(entries, ids, c, 0, |ids|, id);
    var m := Matches(entries, ids, c, 0, |ids|);
    var r := ListOf(entries, m);
    if id in m {
      var i :| 0 <= i < |m| && m[i] == id;
      assert r[i].primaryKey == id;
    }
    if id in entries && entries[id].lastUpdated.Some? {
      var p :| 0 <= p < |ids| && ids[p] == id;
    }
  }

  /** continuePrimaryKey to a record's own position lands on that record. */
  lemma {:induction false} ContinueAtFinds(entries: map<Id, CacheEntry>, ids: seq<Id>, q: nat, from: nat)
    requires IsPrevOrder(entries, ids) && 1 <= from <= q < |ids|
    ensures ContinueAt(entries, ids, KeyOf(entries, ids[q]), from) == q
    decreases q - from
  {
    if from < q {
      EarlierIsAbove(entries, ids, from, q);
      ContinueAtFinds(entries, ids, q, from + 1);
    }
  }

  /**
   * Passing a page's continuation back resumes right after it: the next query scans the
   * matches that follow the page, with no record skipped or repeated, whenever the
   * continuation's key and id are truthy.
   */
  lemma ContinuationResumes(entries: map<Id, CacheEntry>, ids: seq<Id>, c: Criteria, max: Option<int>,
                            max2: Option<int>, start: nat)
    requires IsPrevOrder(entries, ids) && start <= |ids|
    requires var p := PageAt(entries, ids, c, max, start);
      p.nextKey.Some? && p.nextKey.value != 0 && p.nextPrimaryKey.Some? && p.nextPrimaryKey.value != ""
    ensures var p := PageAt(entries, ids, c, max, start);
      var m := Matches(entries, ids, c, start, |ids|);
      |p.cacheEntries| < |m| && p.cacheEntries == ListOf(entries, m[..|p.cacheEntries|]) &&
      CacheEntriesPage(entries, ids, c, max2, Some(Continuation(p.nextKey, p.nextPrimaryKey)))
        == Some(PageOfMatches(entries, m[|p.cacheEntries|..], max2))
  {
    var m := Matches(entries, ids, c, start, |ids|);
    var k := CapOf(max.value);
    var q := MatchesPosition(entries, ids, c, start, |ids|, k);
    assert |Matches(entries, ids, c, start, q)| == k;
    ContinueAtFinds(entries, ids, q, 1);
    EarlierIsAbove(entries, ids, 0, q);
    MatchesConcat(entries, ids, c, start, q, |ids|);
    assert m[k..] == Matches(entries, ids, c, q, |ids|);
  }

  /** A page boundary at a record whose lastUpdated is 0 is not honoured: the next query starts over. */
  lemma ZeroKeyRestarts(entries: map<Id, CacheEntry>, ids: seq<Id>, c: Criteria, max: Option<int>, id: Option<Id>)
    requires IsPrevOrder(entries, ids)
    ensures CacheEntriesPage(entries, ids, c, max, Some(Continuation(Some(0), id)))
         == CacheEntriesPage(entries, ids, c, max, None)
  {
  }

  // ---- getCacheEntriesFromGroup ----

  /** Who asks: the address function, the principal's public key and user name, the type and the group. */
  datatype GroupScope = GroupScope(h: Hash, publicKey: string, ownUserName: Option<string>,
                                   fileType: string, groupId: string)

  /** The user name a group entry is looked up under: the principal's own name means self scope. */
  function LookupName(u: Option<string>, ownUserName: Option<string>): (r: Option<string>)
    ensures TruthyStr(r) ==> r != ownUserName
    ensures r != u ==> r == None && TruthyStr(u) && u == ownUserName
  {
    if TruthyStr(u) && u == ownUserName then None else u
  }

  function EntryName(sc: GroupScope, g: GroupIndex, k: string): Option<string>
  {
    LookupName(Get(g, k), sc.ownUserName)
  }

  /** The cache id a group entry is looked up under. */
  function EntryId(sc: GroupScope, g: GroupIndex, k: string): Id
  {
    IndexId(sc.h, sc.publicKey, k, EntryName(sc, g, k))
  }

  /** The entries of the type found in the cache, and the missing ones, in key order. */
  datatype Split = Split(found: seq<CacheEntry>, missing: seq<GroupEntry>)

  function SplitGroup(entries: map<Id, CacheEntry>, sc: GroupScope, g: GroupIndex, keys: seq<string>): Split
  {
    if keys == [] then Split([], [])
    else
      var s := SplitGroup(entries, sc, g, keys[..|keys| - 1]);
      var k := keys[|keys| - 1];
      if TypeFromIndexPath(k) != sc.fileType then s
      else if EntryId(sc, g, k) in entries then Split(s.found + [entries[EntryId(sc, g, k)]], s.missing)
      else Split(s.found, s.missing + [GroupEntry(sc.groupId, k, EntryName(sc, g, k))])
  }

  /** Key `k` of the type has no cached record and is reported as `x`. */
  predicate MissesAs(entries: map<Id, CacheEntry>, sc: GroupScope, g: GroupIndex, k: string, x: GroupEntry)
  {
    TypeFromIndexPath(k) == sc.fileType && EntryId(sc, g, k) !in entries &&
    x == GroupEntry(sc.groupId, k, EntryName(sc, g, k))
  }

  /** Key `k` of the type looks up the cached record `e`. */
  predicate FindsAs(entries: map<Id, CacheEntry>, sc: GroupScope, g: GroupIndex, k: string, e: CacheEntry)
  {
    TypeFromIndexPath(k) == sc.fileType && EntryId(sc, g, k) in entries && e == entries[EntryId(sc, g, k)]
  }

  /** A group entry is reported missing exactly when a key of the type has no cached record. */
  lemma {:induction false} SplitGroupMissing(entries: map<Id, CacheEntry>, sc: GroupScope, g: GroupIndex,
                                             keys: seq<string>, x: GroupEntry)
    ensures x in SplitGroup(entries, sc, g, keys).missing <==> exists k :: k in keys && MissesAs(entries, sc, g, k, x)
  {
    if keys != [] {
      var init := keys[..|keys| - 1];
      var last := keys[|keys| - 1];
      SplitGroupMissing(entries, sc, g, init, x);
      var before := SplitGroup(entries, sc, g, init).missing;
      var after := SplitGroup(entries, sc, g, keys).missing;
      assert x in after <==> x in before || MissesAs(entries, sc, g, last, x);
      if exists k :: k in init && MissesAs(entries, sc, g, k, x) {
        var k :| k in init && MissesAs(entries, sc, g, k, x);
        assert k in keys;
      }
      if exists k :: k in keys && MissesAs(entries, sc, g, k, x) {
        var k :| k in keys && MissesAs(entries, sc, g, k, x);
        if k != last {
          assert k in init;
        }
      }
    }
  }

  /** A cached record is returned exactly when a key of the type looks it up. */
  lemma {:induction false} SplitGroupFound(entries: map<Id, CacheEntry>, sc: GroupScope, g: GroupIndex,
                                           keys: seq<string>, e: CacheEntry)
    ensures e in SplitGroup(entries, sc, g, keys).found <==> exists k :: k in keys && FindsAs(entries, sc, g, k, e)
  {
    if keys != [] {
      var init := keys[..|keys| - 1];
      var last := keys[|keys| - 1];
      SplitGroupFound(entries, sc, g, init, e);
      var before := SplitGroup(entries, sc, g, init).found;
      var after := SplitGroup(entries, sc, g, keys).found;
      assert e in after <==> e in before || FindsAs(entries, sc, g, last, e);
      if exists k :: k in init && FindsAs(entries, sc, g, k, e) {
        var k :| k in init && FindsAs(entries, sc, g, k, e);
        assert k in keys;
      }
      if exists k :: k in keys && FindsAs(entries, sc, g, k, e) {
        var k :| k in keys && FindsAs(entries, sc, g, k, e);
        if k != last {
          assert k in init;
        }
      }
    }
  }

  /** A missing entry never carries the principal's own user name: that one is looked up as self scope. */
  lemma {:induction false} MissingNeverOwnName(entries: map<Id, CacheEntry>, sc: GroupScope, g: GroupIndex,
                                               keys: seq<string>, x: GroupEntry)
    requires x in SplitGroup(entries, sc, g, keys).missing
    ensures x.groupId == sc.groupId && TypeFromIndexPath(x.indexFile) == sc.fileType
    ensures TruthyStr(x.userName) ==> x.userName != sc.ownUserName
  {
    SplitGroupMissing(entries, sc, g, keys, x);
  }

  /** The loop over the group index's keys, splitting the entries of the type into found and missing. */
  method CollectGroup(entries: map<Id, CacheEntry>, sc: GroupScope, g: GroupIndex)
    returns (found: seq<CacheEntry>, missing: seq<GroupEntry>)
    ensures Split(found, missing) == SplitGroup(entries, sc, g, g.keys)
  {
    found, missing := [], [];
    var i := 0;
    while i < |g.keys|
      invariant 0 <= i <= |g.keys|
      invariant Split(found, missing) == SplitGroup(entries, sc, g, g.keys[..i])
    {
      var key := g.keys[i];
      assert g.keys[..i + 1][..i] == g.keys[..i];
      if TypeFromIndexPath(key) == sc.fileType {
        var uname := Get(g, key);
        if TruthyStr(uname) && uname == sc.ownUserName {
          uname := None;
        }
        var id := IndexId(sc.h, sc.publicKey, key, uname);
        if id in entries {
          found := found + [entries[id]];
        } else {
          missing := missing + [GroupEntry(sc.groupId, key, uname)];
        }
      }
      i := i + 1;
    }
    assert g.keys[..i] == g.keys;
  }

  // ---- the sort ----

  /**
   * The comparator: by lastUpdated, with `<` and `>` both false when either is missing
   * (the `!x`/`!y` branches never apply, since records are objects). A missing time is
   * compared as undefined; a stored null, which JavaScript compares as 0, is not told apart.
   */
  function Cmp(x: CacheEntry, y: CacheEntry): int
  {
    if x.lastUpdated.Some? && y.lastUpdated.Some? && x.lastUpdated.value < y.lastUpdated.value then -1
    else if x.lastUpdated.Some? && y.lastUpdated.Some? && x.lastUpdated.value > y.lastUpdated.value then 1
    else 0
  }

  /** Insert `x` after every element that does not compare greater, scanning from the end. */
  function Insert(s: seq<CacheEntry>, x: CacheEntry): (r: seq<CacheEntry>)
    ensures multiset(r) == multiset(s) + multiset{x}
  {
    if s == [] || Cmp(s[|s| - 1], x) <= 0 then s + [x]
    else
      var init := s[..|s| - 1];
      assert s == init + [s[|s| - 1]];
      Insert(init, x) + [s[|s| - 1]]
  }

  /** Array.prototype.sort with the comparator, as a stable insertion sort. */
  function SortByTime(s: seq<CacheEntry>): seq<CacheEntry>
  {
    if s == [] then [] else Insert(SortByTime(s[..|s| - 1]), s[|s| - 1])
  }

  predicate Timed(s: seq<CacheEntry>)
  {
    forall i :: 0 <= i < |s| ==> s[i].lastUpdated.Some?
  }

  predicate Ascending(s: seq<CacheEntry>)
    requires Timed(s)
  {
    forall i, j :: 0 <= i < j < |s| ==> s[i].lastUpdated.value <= s[j].lastUpdated.value
  }

  lemma {:induction false} SortByTimePermutes(s: seq<CacheEntry>)
    ensures multiset(SortByTime(s)) == multiset(s)
  {
    if s != [] {
      var init := s[..|s| - 1];
      SortByTimePermutes(init);
      assert s == init + [s[|s| - 1]];
    }
  }

  /** Appending an element no earlier element exceeds keeps a sequence ascending. */
  lemma AppendAscending(s: seq<CacheEntry>, x: CacheEntry)
    requires Timed(s) && Ascending(s) && x.lastUpdated.Some?
    requires forall i :: 0 <= i < |s| ==> s[i].lastUpdated.value <= x.lastUpdated.value
    ensures Timed(s + [x]) && Ascending(s + [x])
  {
    var r := s + [x];
    forall i, j | 0 <= i < j < |r|
      ensures r[i].lastUpdated.Some? && r[j].lastUpdated.Some? && r[i].lastUpdated.value <= r[j].lastUpdated.value
    {
      assert r[i] == s[i];
      if j < |s| {
        assert r[j] == s[j];
      }
    }
  }

  lemma {:induction false} InsertAscending(s: seq<CacheEntry>, x: CacheEntry)
    requires Timed(s) && Ascending(s) && x.lastUpdated.Some?
    ensures Timed(Insert(s, x)) && Ascending(Insert(s, x))
  {
    if s == [] || Cmp(s[|s| - 1], x) <= 0 {
      if s != [] {
        forall i | 0 <= i < |s|
          ensures s[i].lastUpdated.value <= x.lastUpdated.value
        {
          assert s[i].lastUpdated.value <= s[|s| - 1].lastUpdated.value || i == |s| - 1;
        }
      }
      AppendAscending(s, x);
    } else {
      var init := s[..|s| - 1];
      var last := s[|s| - 1];
      assert Timed(init) && Ascending(init);
      InsertAscending(init, x);
      var ri := Insert(init, x);
      forall i | 0 <= i < |ri|
        ensures ri[i].lastUpdated.value <= last.lastUpdated.value
      {
        assert ri[i] in multiset(ri);
        assert ri[i] in multiset(init) || ri[i] == x;
        if ri[i] != x {
          var k :| 0 <= k < |init| && init[k] == ri[i];
          assert s[k] == init[k];
        }
      }
      AppendAscending(ri, last);
    }
  }

  /** When every found record has a time, the sort orders them by ascending lastUpdated. */
  lemma {:induction false} SortByTimeAscending(s: seq<CacheEntry>)
    requires Timed(s)
    ensures Timed(SortByTime(s)) && Ascending(SortByTime(s))
  {
    if s != [] {
      var init := s[..|s| - 1];
      SortByTimeAscending(init);
      InsertAscending(SortByTime(init), s[|s| - 1]);
    }
  }

  // ---- paging by offset ----

  /** The part of a previous result getCacheEntriesFromGroup reads back. */
  datatype GroupResults = GroupResults(nextKey: Option<int>, allEntries: Option<seq<CacheEntry>>)

  datatype GroupPage = GroupPage(cacheEntries: seq<CacheEntry>, nextKey: Option<int>, nextPrimaryKey: Option<int>,
                                 allEntries: seq<CacheEntry>)

  /** The page start: a previous nextKey when it is truthy and positive, else 0. */
  function GroupStart(cacheResults: Option<GroupResults>): nat
  {
    if cacheResults.Some? && TruthyNum(cacheResults.value.nextKey) && cacheResults.value.nextKey.value > 0
    then cacheResults.value.nextKey.value else 0
  }

  /** The paging loop's outcome: the page and the next offset. */
  function GroupPageAt(all: seq<CacheEntry>, start: nat, max: Option<int>): (seq<CacheEntry>, Option<int>)
  {
    if start >= |all| then ([], None)
    else if max.Some? && start + CapOf(max.value) < |all| then
      (all[start..start + CapOf(max.value)], Some(start + CapOf(max.value)))
    else (all[start..], None)
  }

  /**
   * A page is the run of at most max (at least one) entries from its start, and the next
   * offset is set exactly when entries remain after it, pointing at the first of them.
   */
  lemma GroupPageContents(all: seq<CacheEntry>, start: nat, max: Option<int>)
    ensures var (page, next) := GroupPageAt(all, start, max);
      (start < |all| ==> start + |page| <= |all| && page == all[start..start + |page|] && |page| > 0) &&
      (start >= |all| ==> page == []) &&
      (max.Some? ==> |page| <= CapOf(max.value)) &&
      (next.Some? <==> start + |page| < |all|) &&
      (next.Some? ==> next.value == start + |page| && next.value > 0)
  {
  }

  method PageGroup(all: seq<CacheEntry>, start: nat, max: Option<int>)
    returns (page: seq<CacheEntry>, next: Option<int>)
    ensures (page, next) == GroupPageAt(all, start, max)
  {
    var startIndex := start;
    var count := 0;
    page := [];
    next := None;
    while startIndex < |all|
      invariant startIndex == start + count
      invariant count > 0 ==> startIndex <= |all|
      invariant page == if count == 0 then [] else all[start..startIndex]
      invariant max.Some? ==> count < CapOf(max.value)
      decreases |all| - startIndex
    {
      page := page + [all[startIndex]];
      count := count + 1;
      startIndex := startIndex + 1;
      assert page == all[start..startIndex];
      if max.Some? && count >= max.value {
        assert count == CapOf(max.value);
        if startIndex < |all| {
          next := Some(startIndex);
        } else {
          assert all[start..startIndex] == all[start..];
        }
        return;
      }
    }
    if count > 0 {
      assert all[start..startIndex] == all[start..];
    }
  }

  /** getCacheEntriesFromGroup: the page and the validate-group-entries request posted, if any. */
  function GroupQuery(entries: map<Id, CacheEntry>, sc: GroupScope, worker: bool, groupIndex: Option<GroupIndex>,
                      max: Option<int>, cacheResults: Option<GroupResults>): (GroupPage, Option<Request>)
  {
    var collected :=
      if cacheResults.Some? && cacheResults.value.allEntries.Some? then (cacheResults.value.allEntries.value, None)
      else if groupIndex.None? then ([], None)
      else
        var s := SplitGroup(entries, sc, groupIndex.value, groupIndex.value.keys);
        (SortByTime(s.found),
         if |s.missing| > 0 && worker then Some(ValidateGroupEntries(Some(sc.groupId), s.missing)) else None);
    var paged := GroupPageAt(collected.0, GroupStart(cacheResults), max);
    (GroupPage(paged.0, paged.1, paged.1, collected.0), collected.1)
  }

  method GetCacheEntriesFromGroup(entries: map<Id, CacheEntry>, sc: GroupScope, worker: bool,
                                  groupIndex: Option<GroupIndex>, max: Option<int>,
                                  cacheResults: Option<GroupResults>)
    returns (r: GroupPage, posted: Option<Request>)
    ensures (r, posted) == GroupQuery(entries, sc, worker, groupIndex, max, cacheResults)
  {
    var allEntries: seq<CacheEntry> := [];
    posted := None;
    if !(cacheResults.Some? && cacheResults.value.allEntries.Some?) {
      if groupIndex.Some? {
        var found, missing := CollectGroup(entries, sc, groupIndex.value);
        if |missing| > 0 && worker {
          posted := Some(ValidateGroupEntries(Some(sc.groupId), missing));
        }
        allEntries := SortByTime(found);
      }
    } else {
      allEntries := cacheResults.value.allEntries.value;
    }
    var start := 0;
    if cacheResults.Some? && TruthyNum(cacheResults.value.nextKey) {
      var idx := cacheResults.value.nextKey.value;
      if idx > 0 {
        start := idx;
      }
    }
    var page, next := PageGroup(allEntries, start, max);
    r := GroupPage(page, next, next, allEntries);
  }

  /**
   * validate-group-entries is posted exactly when the entries are collected afresh, a
   * worker exists and some key of the type has no cached record.
   */
  lemma GroupPostsIff(entries: map<Id, CacheEntry>, sc: GroupScope, worker: bool, groupIndex: Option<GroupIndex>,
                      max: Option<int>, cacheResults: Option<GroupResults>)
    ensures GroupQuery(entries, sc, worker, groupIndex, max, cacheResults).1.Some? <==>
      !(cacheResults.Some? && cacheResults.value.allEntries.Some?) && groupIndex.Some? && worker &&
      exists k :: k in groupIndex.value.keys && TypeFromIndexPath(k) == sc.fileType &&
        EntryId(sc, groupIndex.value, k) !in entries
  {
    if !(cacheResults.Some? && cacheResults.value.allEntries.Some?) && groupIndex.Some? {
      var g := groupIndex.value;
      var s := SplitGroup(entries, sc, g, g.keys);
      if exists k :: k in g.keys && TypeFromIndexPath(k) == sc.fileType && EntryId(sc, g, k) !in entries {
        var k :| k in g.keys && TypeFromIndexPath(k) == sc.fileType && EntryId(sc, g, k) !in entries;
        SplitGroupMissing(entries, sc, g, g.keys, GroupEntry(sc.groupId, k, EntryName(sc, g, k)));
      } else if |s.missing| > 0 {
        SplitGroupMissing(entries, sc, g, g.keys, s.missing[0]);
      }
    }
  }

  /**
   * Passing a result back continues right after its page, from the same collected entries,
   * without reading the group again or posting again.
   */
  lemma GroupContinuationResumes(entries: map<Id, CacheEntry>, sc: GroupScope, worker: bool,
                                 groupIndex: Option<GroupIndex>, max: Option<int>, cacheResults: Option<GroupResults>,
                                 entries2: map<Id, CacheEntry>, groupIndex2: Option<GroupIndex>, max2: Option<int>)
    requires GroupQuery(entries, sc, worker, groupIndex, max, cacheResults).0.nextKey.Some?
    ensures var r := GroupQuery(entries, sc, worker, groupIndex, max, cacheResults).0;
      var start := GroupStart(cacheResults);
      var r2 := GroupQuery(entries2, sc, worker, groupIndex2, max2, Some(GroupResults(r.nextKey, Some(r.allEntries))));
      start + |r.cacheEntries| <= |r.allEntries| &&
      r.cacheEntries == r.allEntries[start..start + |r.cacheEntries|] &&
      r2.1.None? && r2.0.allEntries == r.allEntries &&
      r2.0.cacheEntries == GroupPageAt(r.allEntries, start + |r.cacheEntries|, max2).0
  {
    var r := GroupQuery(entries, sc, worker, groupIndex, max, cacheResults).0;
    GroupPageContents(r.allEntries, GroupStart(cacheResults), max);
  }
}
