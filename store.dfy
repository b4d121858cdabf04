/**
 * The bot's database as an object whose tables the operations update in
 * place: INSERT appends a row, DELETE drops rows, UPDATE rewrites a row.
 */
module Storage {
  import opened Common
  import opened Feedings
  import opened Invites

  class Store {
    /** The `feedings` table in rowid order. */
    var feedings: seq<Feeding>
    /** The `invites` table in rowid order. */
    var invites: seq<Invite>
    /** The next id `AUTOINCREMENT` hands out; ids are never reused. */
    var nextId: nat

    /** Table invariants: primary keys are unique, ids come from the counter, codes have the generated shape. */
    ghost predicate Valid()
      reads this
    {
      && UniqueIds(feedings)
      && (forall i :: 0 <= i < |feedings| ==> feedings[i].id < nextId)
      && UniqueCodes(invites)
      && (forall i :: 0 <= i < |invites| ==> IsInviteCode(invites[i].code))
    }

    /** `init_db` on a fresh database file: both tables empty. */
    constructor ()
      ensures Valid()
      ensures feedings == [] && invites == []
    {
      feedings, invites, nextId := [], [], 1;
    }

    /**
     * `add_feeding_db`: one new row with a fresh id; nothing else changes.
     * A volume outside the INTEGER range makes binding it raise
     * `OverflowError` before anything is written (`stored` is false).
     */
    method AddFeeding(userId: int, ts: int, ml: Option<int>) returns (stored: bool)
      requires Valid()
      modifies this
      ensures Valid()
      ensures stored <==> Storable(ml)
      ensures stored ==> feedings == old(feedings) + [Feeding(old(nextId), userId, ts, ml)] && nextId > old(nextId)
      ensures !stored ==> unchanged(this)
      ensures forall i :: 0 <= i < |old(feedings)| ==> old(feedings)[i].id != old(nextId)
      ensures invites == old(invites)
    {
      if !Storable(ml) {
        return false;
      }
      feedings := feedings + [Feeding(nextId, userId, ts, ml)];
      nextId := nextId + 1;
      stored := true;
    }

    /**
     * `delete_last_feeding`: removes one of the owner's rows with the latest
     * timestamp and reports whether there was one.
     */
    method DeleteLastFeeding(owner: int) returns (found: bool)
      requires Valid()
      modifies this
      ensures Valid()
      ensures invites == old(invites) && nextId == old(nextId)
      ensures found <==> exists i :: 0 <= i < |old(feedings)| && old(feedings)[i].userId == owner
      ensures !found ==> feedings == old(feedings)
      ensures found ==> exists k :: LatestRow(old(feedings), owner, k) && feedings == old(feedings)[..k] + old(feedings)[k + 1..]
      ensures forall o :: o != owner ==> Select(feedings, UserIs(o)) == Select(old(feedings), UserIs(o))
    {
      var k := LatestIndex(feedings, owner);
      if k.None? {
        return false;
      }
      ghost var before := feedings;
      var id := feedings[k.value].id;
      DeleteByIdRemovesRow(feedings, k.value);
      DropRowKeepsIds(feedings, k.value, nextId);
      feedings := Select(feedings, IdIsNot(id));
      found := true;
      assert LatestRow(before, owner, k.value);
      forall o | o != owner
        ensures Select(feedings, UserIs(o)) == Select(before, UserIs(o))
      {
        SelectWithoutRow(before, k.value, UserIs(o));
      }
    }

    /** `delete_all_feedings`: removes exactly the owner's rows and returns how many there were. */
    method DeleteAllFeedings(owner: int) returns (deleted: nat)
      requires Valid()
      modifies this
      ensures Valid()
      ensures invites == old(invites) && nextId == old(nextId)
      ensures feedings == Select(old(feedings), UserIsNot(owner))
      ensures deleted == |Select(old(feedings), UserIs(owner))| == |old(feedings)| - |feedings|
      ensures forall f :: f in feedings ==> f.userId != owner
      ensures forall o :: o != owner ==> Select(feedings, UserIs(o)) == Select(old(feedings), UserIs(o))
    {
      ghost var before := feedings;
      var kept := Select(feedings, UserIsNot(owner));
      SelectSplitCount(feedings, owner);
      deleted := |feedings| - |kept|;
      feedings := kept;
      forall o | o != owner
        ensures Select(feedings, UserIs(o)) == Select(before, UserIs(o))
      {
        SelectOtherOwner(before, owner, o);
      }
      assert UniqueIds(feedings) && forall i :: 0 <= i < |feedings| ==> feedings[i].id < nextId by {
        SelectKeepsIds(before, UserIsNot(owner), nextId);
      }
    }

    /**
     * `create_invite_code`: the code drawn from the alphabet, inserted
     * unclaimed; the INSERT fails when the code is already taken.
     */
    method CreateInviteCode(ownerId: int, draws: seq<nat>, now: int) returns (r: Result<string, StoreError>)
      requires Valid()
      requires |draws| == CodeLength && ValidDraws(draws)
      modifies this
      ensures Valid()
      ensures feedings == old(feedings) && nextId == old(nextId)
      ensures r.Err? <==> exists i :: 0 <= i < |old(invites)| && old(invites)[i].code == CodeFromDraws(draws)
      ensures r.Err? ==> r.error == IntegrityError && invites == old(invites)
      ensures r.Ok? ==> r.value == CodeFromDraws(draws) && IsInviteCode(r.value)
      ensures r.Ok? ==> invites == old(invites) + [Invite(r.value, ownerId, None, now)]
    {
      var code := CodeFromDraws(draws);
      var inserted := InsertInvite(invites, Invite(code, ownerId, None, now));
      match inserted
      case Err(e) =>
        r := Err(e);
      case Ok(t) =>
        invites := t;
        r := Ok(code);
    }

    /**
     * `join_with_code`: looks the code up and, when it is unclaimed, binds it
     * to the joining user in the same step.
     */
    method JoinWithCode(code: string, invitedId: int) returns (owner: Option<int>, status: JoinStatus)
      requires Valid()
      modifies this
      ensures Valid()
      ensures feedings == old(feedings) && nextId == old(nextId)
      ensures JoinOutcome(owner, status, invites) == Join(old(invites), code, invitedId)
      ensures status == JoinOk <==> exists i :: 0 <= i < |old(invites)| && old(invites)[i].code == code && old(invites)[i].invitedId.None?
      ensures status != JoinOk ==> owner == None && invites == old(invites)
      ensures forall i :: 0 <= i < |old(invites)| && old(invites)[i].invitedId.Some? ==> invites[i] == old(invites)[i]
    {
      ghost var before := invites;
      JoinCases(invites, code, invitedId);
      forall i | 0 <= i < |before| && before[i].invitedId.Some?
        ensures |Join(before, code, invitedId).invites| == |before|
        ensures Join(before, code, invitedId).invites[i] == before[i]
      {
        JoinFrame(before, code, invitedId, i);
      }
      JoinKeepsUniqueCodes(before, code, invitedId);
      var k := FindCode(invites, code);
      if k.None? {
        return None, NotFound;
      }
      var row := invites[k.value];
      if row.invitedId.Some? {
        return None, AlreadyUsed;
      }
      invites := SetInvited(invites, code, invitedId);
      owner, status := Some(row.ownerId), JoinOk;
    }
  }

  /** Dropping one row keeps ids unique and below the counter. */
  lemma DropRowKeepsIds(s: seq<Feeding>, k: nat, bound: nat)
    requires k < |s|
    requires UniqueIds(s) && forall i :: 0 <= i < |s| ==> s[i].id < bound
    ensures var t := s[..k] + s[k + 1..];
      UniqueIds(t) && forall i :: 0 <= i < |t| ==> t[i].id < bound
  {
    var t := s[..k] + s[k + 1..];
    assert forall i :: 0 <= i < |t| ==> t[i] == s[if i < k then i else i + 1];
  }

  /** Filtering keeps ids unique and below the counter. */
  lemma {:induction false} SelectKeepsIds(s: seq<Feeding>, w: Where, bound: nat)
    requires UniqueIds(s) && forall i :: 0 <= i < |s| ==> s[i].id < bound
    ensures UniqueIds(Select(s, w)) && forall i :: 0 <= i < |Select(s, w)| ==> Select(s, w)[i].id < bound
  {
    if s != [] {
      SelectKeepsIds(s[1..], w, bound);
      var rest := Select(s[1..], w);
      if Matches(w, s[0]) {
        assert forall i :: 0 <= i < |rest| ==> rest[i].id != s[0].id by {
          forall i | 0 <= i < |rest|
            ensures rest[i].id != s[0].id
          {
            assert rest[i] in s[1..];
            var j :| 0 <= j < |s[1..]| && s[1..][j] == rest[i];
            assert s[j + 1] == rest[i];
          }
        }
        var r := [s[0]] + rest;
        assert Select(s, w) == r;
        assert forall i :: 0 < i < |r| ==> r[i] == rest[i - 1];
      } else {
        assert Select(s, w) == rest;
      }
    }
  }
}
