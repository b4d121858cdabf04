/**
 * The `feedings` table and the read-only queries the bot runs on it. Rows are
 * kept in insertion (rowid) order; timestamps are whole seconds.
 */
module Feedings {
  import opened Common

  /** A row of `feedings(id, user_id, ts_utc, ml)`; `ml` is nullable. */
  datatype Feeding = Feeding(id: nat, userId: int, ts: int, ml: Option<int>)

  /** A row of the 24-hour report: `(ts_utc, ml)`. */
  datatype Entry = Entry(ts: int, ml: Option<int>)

  /** The report window, `timedelta(hours=24)`, in seconds. */
  const Day: int := 24 * 60 * 60

  /** The range of SQLite's INTEGER storage class, a signed 64-bit integer. */
  const SqlIntegerMin: int := -0x8000_0000_0000_0000
  const SqlIntegerMax: int := 0x7FFF_FFFF_FFFF_FFFF

  predicate IsSqlInteger(v: int)
  {
    SqlIntegerMin <= v <= SqlIntegerMax
  }

  /** A volume the driver can bind: NULL, or an int within the INTEGER range. */
  predicate Storable(ml: Option<int>)
  {
    ml.None? || IsSqlInteger(ml.value)
  }

  /** The WHERE clauses the bot issues against `feedings`. */
  datatype Where =
    | UserIs(owner: int)                 // user_id = ?
    | UserIsNot(owner: int)              // rows a DELETE ... WHERE user_id = ? keeps
    | UserSince(owner: int, since: int)  // user_id = ? AND ts_utc >= ?
    | IdIsNot(id: nat)                   // rows a DELETE ... WHERE id = ? keeps

  predicate Matches(w: Where, f: Feeding)
  {
    match w
    case UserIs(o) => f.userId == o
    case UserIsNot(o) => f.userId != o
    case UserSince(o, since) => f.userId == o && f.ts >= since
    case IdIsNot(id) => f.id != id
  }

  /** The rows of `s` that satisfy `w`, in table order. */
  function Select(s: seq<Feeding>, w: Where): (r: seq<Feeding>)
    ensures |r| <= |s|
    ensures forall f :: f in r <==> f in s && Matches(w, f)
  {
    if s == [] then []
    else (if Matches(w, s[0]) then [s[0]] else []) + Select(s[1..], w)
  }

  /** The identifiers the table assigned are pairwise distinct (PRIMARY KEY). */
  predicate UniqueIds(s: seq<Feeding>)
  {
    forall i, j :: 0 <= i < j < |s| ==> s[i].id != s[j].id
  }

  /** Projects rows onto the report's columns `(ts_utc, ml)`. */
  function Project(s: seq<Feeding>): (r: seq<Entry>)
    ensures |r| == |s|
    ensures forall i :: 0 <= i < |s| ==> r[i] == Entry(s[i].ts, s[i].ml)
  {
    if s == [] then [] else [Entry(s[0].ts, s[0].ml)] + Project(s[1..])
  }

  predicate Ascending(r: seq<Entry>)
  {
    forall i, j :: 0 <= i < j < |r| ==> r[i].ts <= r[j].ts
  }

  /** Inserts `e` in front of the first entry that is not earlier than it. */
  function Insert(e: Entry, r: seq<Entry>): (q: seq<Entry>)
    requires Ascending(r)
    ensures Ascending(q)
    ensures multiset(q) == multiset(r) + multiset{e}
    ensures q[0] == e || (r != [] && q[0] == r[0])
  {
    if r == [] || e.ts <= r[0].ts then
      AscendingCons(e, r);
      [e] + r
    else
      var rest := Insert(e, r[1..]);
      assert r == [r[0]] + r[1..];
      AscendingCons(r[0], rest);
      [r[0]] + rest
  }

  /** An entry no later than the head of an ascending list can go in front of it. */
  lemma AscendingCons(x: Entry, r: seq<Entry>)
    requires Ascending(r) && (r != [] ==> x.ts <= r[0].ts)
    ensures Ascending([x] + r)
  {
    var q := [x] + r;
    assert forall i :: 0 < i < |q| ==> q[i] == r[i - 1];
  }

  /** `ORDER BY ts_utc ASC`; entries with equal timestamps stay in table order. */
  function SortByTs(r: seq<Entry>): (q: seq<Entry>)
    ensures Ascending(q)
    ensures multiset(q) == multiset(r)
  {
    if r == [] then []
    else
      assert r == [r[0]] + r[1..];
      Insert(r[0], SortByTs(r[1..]))
  }

  /**
   * `get_feedings_last_24h_for_owner`: the `(ts, ml)` of the owner's rows
   * with `ts >= now - 24h`, ascending by timestamp.
   */
  function FeedingsLast24h(s: seq<Feeding>, owner: int, now: int): (r: seq<Entry>)
    ensures Ascending(r)
    ensures multiset(r) == multiset(Project(Select(s, UserSince(owner, now - Day))))
  {
    SortByTs(Project(Select(s, UserSince(owner, now - Day))))
  }

  /** Row `k` is one of the owner's rows with the latest timestamp. */
  predicate LatestRow(s: seq<Feeding>, owner: int, k: int)
  {
    && 0 <= k < |s| && s[k].userId == owner
    && forall i :: 0 <= i < |s| && s[i].userId == owner ==> s[i].ts <= s[k].ts
  }

  /**
   * The row `ORDER BY ts_utc DESC LIMIT 1` picks among the owner's rows, as an
   * index into `s`; among equal timestamps the earliest row wins.
   */
  function LatestIndex(s: seq<Feeding>, owner: int): (k: Option<nat>)
    ensures k.None? <==> forall i :: 0 <= i < |s| ==> s[i].userId != owner
    ensures k.Some? ==> LatestRow(s, owner, k.value)
  {
    if s == [] then None
    else
      var n := |s| - 1;
      var k := LatestIndex(s[..n], owner);
      if s[n].userId != owner then k
      else if k.None? || s[k.value].ts < s[n].ts then Some(n)
      else k
  }

  // ---------------------------------------------------------------------------
  // Lemmas about the queries.

  lemma {:induction false} SelectAppend(a: seq<Feeding>, b: seq<Feeding>, w: Where)
    ensures Select(a + b, w) == Select(a, w) + Select(b, w)
  {
    if a == [] {
      assert a + b == b;
    } else {
      assert (a + b)[1..] == a[1..] + b;
      SelectAppend(a[1..], b, w);
    }
  }

  lemma {:induction false} ProjectAppend(a: seq<Feeding>, b: seq<Feeding>)
    ensures Project(a + b) == Project(a) + Project(b)
  {
    if a == [] {
      assert a + b == b;
    } else {
      assert (a + b)[1..] == a[1..] + b;
      ProjectAppend(a[1..], b);
    }
  }

  /** Every row lands on one side of `user_id = owner`. */
  lemma {:induction false} SelectSplitCount(s: seq<Feeding>, owner: int)
    ensures |Select(s, UserIs(owner))| + |Select(s, UserIsNot(owner))| == |s|
  {
    if s != [] {
      SelectSplitCount(s[1..], owner);
    }
  }

  /** Dropping the rows of `owner` leaves every other owner's rows, in order. */
  lemma {:induction false} SelectOtherOwner(s: seq<Feeding>, owner: int, other: int)
    requires other != owner
    ensures Select(Select(s, UserIsNot(owner)), UserIs(other)) == Select(s, UserIs(other))
  {
    if s != [] {
      var head := if Matches(UserIsNot(owner), s[0]) then [s[0]] else [];
      SelectAppend(head, Select(s[1..], UserIsNot(owner)), UserIs(other));
      SelectOtherOwner(s[1..], owner, other);
    }
  }

  /** Removing a row that a filter rejects does not change what the filter selects. */
  lemma {:induction false} SelectWithoutRow(s: seq<Feeding>, k: nat, w: Where)
    requires k < |s| && !Matches(w, s[k])
    ensures Select(s[..k] + s[k + 1..], w) == Select(s, w)
  {
    if k == 0 {
      assert s[..k] + s[k + 1..] == s[1..];
    } else {
      var t := s[..k] + s[k + 1..];
      assert t[0] == s[0];
      assert t[1..] == s[1..][..k - 1] + s[1..][k..];
      SelectWithoutRow(s[1..], k - 1, w);
    }
  }

  /** A filter every row passes changes nothing. */
  lemma {:induction false} SelectAll(s: seq<Feeding>, w: Where)
    requires forall i :: 0 <= i < |s| ==> Matches(w, s[i])
    ensures Select(s, w) == s
  {
    if s != [] {
      SelectAll(s[1..], w);
    }
  }

  /** With unique ids, `DELETE ... WHERE id = ?` on the id of row `k` removes exactly that row. */
  lemma DeleteByIdRemovesRow(s: seq<Feeding>, k: nat)
    requires UniqueIds(s) && k < |s|
    ensures Select(s, IdIsNot(s[k].id)) == s[..k] + s[k + 1..]
  {
    var w := IdIsNot(s[k].id);
    SelectWithoutRow(s, k, w);
    var t := s[..k] + s[k + 1..];
    forall i | 0 <= i < |t|
      ensures Matches(w, t[i])
    {
      if i < k {
        assert t[i] == s[i];
      } else {
        assert t[i] == s[i + 1];
      }
    }
    SelectAll(t, w);
  }

  /** The report lists exactly the owner's rows inside the window. */
  lemma Last24hMembers(s: seq<Feeding>, owner: int, now: int, e: Entry)
    ensures e in FeedingsLast24h(s, owner, now) <==>
            exists f :: f in s && f.userId == owner && f.ts >= now - Day && e == Entry(f.ts, f.ml)
  {
    var sel := Select(s, UserSince(owner, now - Day));
    var proj := Project(sel);
    assert e in FeedingsLast24h(s, owner, now) <==> e in multiset(proj);
    if e in proj {
      var i :| 0 <= i < |proj| && proj[i] == e;
      assert sel[i] in sel;
    }
    if exists f :: f in s && f.userId == owner && f.ts >= now - Day && e == Entry(f.ts, f.ml) {
      var f :| f in s && f.userId == owner && f.ts >= now - Day && e == Entry(f.ts, f.ml);
      assert f in sel;
      var i :| 0 <= i < |sel| && sel[i] == f;
      assert proj[i] == e;
    }
  }

  /** A new row shows up in the report exactly when it is the owner's and in the window. */
  lemma Last24hAfterInsert(s: seq<Feeding>, f: Feeding, owner: int, now: int)
    ensures multiset(FeedingsLast24h(s + [f], owner, now)) ==
            multiset(FeedingsLast24h(s, owner, now)) +
            (if f.userId == owner && f.ts >= now - Day then multiset{Entry(f.ts, f.ml)} else multiset{})
  {
    var w := UserSince(owner, now - Day);
    SelectAppend(s, [f], w);
    assert Select([f], w) == (if Matches(w, f) then [f] else []);
    ProjectAppend(Select(s, w), Select([f], w));
  }

  /** The report of one owner depends only on that owner's rows. */
  lemma {:induction false} Last24hOwnRows(s: seq<Feeding>, owner: int, now: int)
    ensures FeedingsLast24h(s, owner, now) == FeedingsLast24h(Select(s, UserIs(owner)), owner, now)
  {
    var w := UserSince(owner, now - Day);
    assert Select(s, w) == Select(Select(s, UserIs(owner)), w) by { SelectNarrow(s, owner, now - Day); }
  }

  lemma {:induction false} SelectNarrow(s: seq<Feeding>, owner: int, since: int)
    ensures Select(s, UserSince(owner, since)) == Select(Select(s, UserIs(owner)), UserSince(owner, since))
  {
    if s != [] {
      var head := if Matches(UserIs(owner), s[0]) then [s[0]] else [];
      SelectAppend(head, Select(s[1..], UserIs(owner)), UserSince(owner, since));
      SelectNarrow(s[1..], owner, since);
    }
  }
}
