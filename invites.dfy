/**
 * The `invites` table, the one-shot claim of an invite code, and the owner
 * resolution that decides whose feedings an acting user works on.
 */
module Invites {
  import opened Common

  /** A row of `invites(code, owner_id, invited_id, created_at)`; `invited_id` is nullable. */
  datatype Invite = Invite(code: string, ownerId: int, invitedId: Option<int>, createdAt: int)

  /** The three statuses `join_with_code` reports: "ok", "not_found" and "already_used". */
  datatype JoinStatus = JoinOk | NotFound | AlreadyUsed

  /** What `join_with_code` returns, `(owner_id or None, status)`, with the table afterwards. */
  datatype JoinOutcome = JoinOutcome(owner: Option<int>, status: JoinStatus, invites: seq<Invite>)

  /** `string.ascii_uppercase + string.digits`, the characters a code is drawn from. */
  const CodeAlphabet: string := "ABCDEFGHIJKLMNOPQRSTUVWXYZ0123456789"

  /** Number of characters in an invite code. */
  const CodeLength: nat := 6

  predicate IsCodeChar(c: char)
  {
    ('A' <= c <= 'Z') || ('0' <= c <= '9')
  }

  /** A code of the shape `create_invite_code` produces. */
  predicate IsInviteCode(code: string)
  {
    |code| == CodeLength && forall i :: 0 <= i < |code| ==> IsCodeChar(code[i])
  }

  predicate ValidDraws(draws: seq<nat>)
  {
    forall i :: 0 <= i < |draws| ==> draws[i] < |CodeAlphabet|
  }

  lemma AlphabetChars(k: nat)
    requires k < |CodeAlphabet|
    ensures CodeAlphabet[k] == if k < 26 then ('A' as int + k) as char else ('0' as int + k - 26) as char
  {
  }

  /**
   * The code assembled from the positions `secrets.choice` picked in the
   * alphabet, one per character.
   */
  function CodeFromDraws(draws: seq<nat>): (code: string)
    requires ValidDraws(draws)
    ensures |code| == |draws|
    ensures forall i :: 0 <= i < |code| ==> IsCodeChar(code[i])
  {
    if draws == [] then []
    else
      AlphabetChars(draws[0]);
      [CodeAlphabet[draws[0]]] + CodeFromDraws(draws[1..])
  }

  /** The alphabet position of a code character. */
  function CharIndex(c: char): (k: nat)
    requires IsCodeChar(c)
    ensures k < |CodeAlphabet| && CodeAlphabet[k] == c
  {
    var k := if 'A' <= c <= 'Z' then c as int - 'A' as int else 26 + (c as int - '0' as int);
    AlphabetChars(k);
    k
  }

  /** Every code of the right shape can be drawn: the generator reaches the whole code space. */
  lemma {:induction false} EveryCodeDrawable(code: string)
    requires forall i :: 0 <= i < |code| ==> IsCodeChar(code[i])
    ensures exists draws: seq<nat> :: ValidDraws(draws) && CodeFromDraws(draws) == code
  {
    if code != [] {
      EveryCodeDrawable(code[1..]);
      var rest: seq<nat> :| ValidDraws(rest) && CodeFromDraws(rest) == code[1..];
      var draws := [CharIndex(code[0])] + rest;
      assert draws[1..] == rest;
      assert CodeFromDraws(draws) == code;
    } else {
      assert CodeFromDraws([]) == code;
    }
  }

  /** The code column is a primary key. */
  predicate UniqueCodes(t: seq<Invite>)
  {
    forall i, j :: 0 <= i < j < |t| ==> t[i].code != t[j].code
  }

  /** `SELECT ... FROM invites WHERE code = ?`, first row in table order. */
  function FindCode(t: seq<Invite>, code: string): (k: Option<nat>)
    ensures k.None? <==> forall i :: 0 <= i < |t| ==> t[i].code != code
    ensures k.Some? ==> k.value < |t| && t[k.value].code == code
    ensures k.Some? ==> forall i :: 0 <= i < k.value ==> t[i].code != code
  {
    if t == [] then None
    else if t[0].code == code then Some(0)
    else match FindCode(t[1..], code)
      case None => None
      case Some(k) => Some(k + 1)
  }

  /** `UPDATE invites SET invited_id = ? WHERE code = ?`. */
  function SetInvited(t: seq<Invite>, code: string, user: int): seq<Invite>
  {
    seq(|t|, i requires 0 <= i < |t| => if t[i].code == code then t[i].(invitedId := Some(user)) else t[i])
  }

  /** `join_with_code(code, invited_id)` as one atomic step on the table. */
  function Join(t: seq<Invite>, code: string, user: int): JoinOutcome
  {
    match FindCode(t, code)
    case None => JoinOutcome(None, NotFound, t)
    case Some(k) =>
      if t[k].invitedId.Some? then JoinOutcome(None, AlreadyUsed, t)
      else JoinOutcome(Some(t[k].ownerId), JoinOk, SetInvited(t, code, user))
  }

  /** The INSERT of `create_invite_code`: fails on a code already in the table. */
  function InsertInvite(t: seq<Invite>, inv: Invite): (r: Result<seq<Invite>, StoreError>)
    ensures r.Err? <==> exists i :: 0 <= i < |t| && t[i].code == inv.code
    ensures r.Err? ==> r.error == IntegrityError
    ensures r.Ok? ==> r.value == t + [inv] && (UniqueCodes(t) ==> UniqueCodes(r.value))
  {
    if FindCode(t, inv.code).Some? then Err(IntegrityError) else Ok(t + [inv])
  }

  /** `get_owner_by_invited`: the owner of the first invite claimed by `user`. */
  function OwnerByInvited(t: seq<Invite>, user: int): (r: Option<int>)
    ensures r.None? <==> forall i :: 0 <= i < |t| ==> t[i].invitedId != Some(user)
    ensures r.Some? ==> exists i :: 0 <= i < |t| && t[i].invitedId == Some(user) && t[i].ownerId == r.value
  {
    if t == [] then None
    else if t[0].invitedId == Some(user) then Some(t[0].ownerId)
    else
      var r := OwnerByInvited(t[1..], user);
      assert forall i :: 1 <= i < |t| ==> t[i] == t[1..][i - 1];
      r
  }

  /**
   * `get_owner_by_invited(user_id) or user_id`: the owner the acting user
   * works for. Python's `or` also falls back when the owner id found is 0.
   */
  function ResolveOwner(t: seq<Invite>, user: int): (r: int)
    ensures (forall i :: 0 <= i < |t| ==> t[i].invitedId != Some(user)) ==> r == user
    ensures r != user ==> exists i :: 0 <= i < |t| && t[i].invitedId == Some(user) && t[i].ownerId == r
  {
    match OwnerByInvited(t, user)
    case Some(o) => if o != 0 then o else user
    case None => user
  }

  // ---------------------------------------------------------------------------
  // Lemmas about the invite table.

  /** The first claim of `user` decides its owner; an owner id of 0 falls back to the user. */
  lemma {:induction false} ResolveFirstClaim(t: seq<Invite>, user: int, i: nat)
    requires i < |t| && t[i].invitedId == Some(user)
    requires forall j :: 0 <= j < i ==> t[j].invitedId != Some(user)
    ensures ResolveOwner(t, user) == if t[i].ownerId != 0 then t[i].ownerId else user
  {
    assert OwnerByInvited(t, user) == Some(t[i].ownerId) by { OwnerByInvitedFirst(t, user, i); }
  }

  lemma {:induction false} OwnerByInvitedFirst(t: seq<Invite>, user: int, i: nat)
    requires i < |t| && t[i].invitedId == Some(user)
    requires forall j :: 0 <= j < i ==> t[j].invitedId != Some(user)
    ensures OwnerByInvited(t, user) == Some(t[i].ownerId)
  {
    if i > 0 {
      OwnerByInvitedFirst(t[1..], user, i - 1);
    }
  }

  /** `r` is the outcome of claiming row `i`, which carries `code` and was unclaimed. */
  predicate ClaimedAt(t: seq<Invite>, code: string, user: int, i: int, r: JoinOutcome)
  {
    && 0 <= i < |t| && t[i].code == code && t[i].invitedId.None?
    && r.owner == Some(t[i].ownerId) && r.invites == t[i := t[i].(invitedId := Some(user))]
  }

  /** The three outcomes of a claim, for a table whose codes are unique. */
  lemma JoinCases(t: seq<Invite>, code: string, user: int)
    requires UniqueCodes(t)
    ensures var r := Join(t, code, user);
      && (r.status == NotFound <==> forall i :: 0 <= i < |t| ==> t[i].code != code)
      && (r.status == AlreadyUsed <==> exists i :: 0 <= i < |t| && t[i].code == code && t[i].invitedId.Some?)
      && (r.status == JoinOk <==> exists i :: 0 <= i < |t| && t[i].code == code && t[i].invitedId.None?)
      && (r.status != JoinOk ==> r.owner == None && r.invites == t)
      && (r.status == JoinOk ==>
            exists i :: ClaimedAt(t, code, user, i, r))
  {
    var r := Join(t, code, user);
    var k := FindCode(t, code);
    if k.Some? {
      var i := k.value;
      assert forall j :: 0 <= j < |t| && t[j].code == code ==> j == i;
      if r.status == JoinOk {
        assert r.invites == t[i := t[i].(invitedId := Some(user))];
        assert ClaimedAt(t, code, user, i, r);
      }
    }
  }

  /** A code is claimed at most once: a second claim, by anyone, changes nothing and fails. */
  lemma JoinOnce(t: seq<Invite>, code: string, first: int, second: int)
    ensures var r1 := Join(t, code, first);
      var r2 := Join(r1.invites, code, second);
      && r2.status != JoinOk
      && r2.owner == None
      && r2.invites == r1.invites
      && (r1.status == JoinOk ==> r2.status == AlreadyUsed)
  {
    var r1 := Join(t, code, first);
    var k := FindCode(t, code);
    if r1.status == JoinOk {
      var t1 := r1.invites;
      assert FindCode(t1, code) == k by { FindCodeAfterSet(t, code, first); }
    }
  }

  /** The UPDATE of a claim keeps every code, so a lookup by code finds the same row. */
  lemma FindCodeAfterSet(t: seq<Invite>, code: string, user: int)
    ensures FindCode(SetInvited(t, code, user), code) == FindCode(t, code)
  {
    var t1 := SetInvited(t, code, user);
    assert |t1| == |t| && forall i :: 0 <= i < |t| ==> t1[i].code == t[i].code;
    FindCodeSameCodes(t1, t, code);
  }

  /** Lookup by code sees only the codes, row by row. */
  lemma {:induction false} FindCodeSameCodes(t: seq<Invite>, u: seq<Invite>, code: string)
    requires |t| == |u| && forall i :: 0 <= i < |t| ==> t[i].code == u[i].code
    ensures FindCode(t, code) == FindCode(u, code)
  {
    if t != [] && t[0].code != code {
      assert forall i :: 0 <= i < |t| - 1 ==> t[1..][i].code == t[i + 1].code;
      FindCodeSameCodes(t[1..], u[1..], code);
    }
  }

  /** A claim never touches a row that was already claimed or that carries another code. */
  lemma JoinFrame(t: seq<Invite>, code: string, user: int, i: nat)
    requires UniqueCodes(t) && i < |t|
    requires t[i].code != code || t[i].invitedId.Some?
    ensures |Join(t, code, user).invites| == |t|
    ensures Join(t, code, user).invites[i] == t[i]
  {
    JoinCases(t, code, user);
  }

  /** Claims keep the codes, so the primary key still holds. */
  lemma JoinKeepsUniqueCodes(t: seq<Invite>, code: string, user: int)
    requires UniqueCodes(t)
    ensures UniqueCodes(Join(t, code, user).invites)
  {
    JoinCases(t, code, user);
  }

  /** Right after a successful first claim, the claimant resolves to the inviting owner. */
  lemma JoinThenResolve(t: seq<Invite>, code: string, user: int)
    requires UniqueCodes(t)
    requires OwnerByInvited(t, user) == None
    requires Join(t, code, user).status == JoinOk
    ensures OwnerByInvited(Join(t, code, user).invites, user) == Join(t, code, user).owner
    ensures var o := Join(t, code, user).owner.value;
      ResolveOwner(Join(t, code, user).invites, user) == if o != 0 then o else user
  {
    JoinCases(t, code, user);
    var r := Join(t, code, user);
    var i :| ClaimedAt(t, code, user, i, r);
    OwnerByInvitedFirst(r.invites, user, i);
    ResolveFirstClaim(r.invites, user, i);
  }

  /** A freshly inserted code is unclaimed: the first claim on it succeeds for its owner. */
  lemma InsertThenJoin(t: seq<Invite>, code: string, owner: int, now: int, user: int)
    requires UniqueCodes(t)
    requires InsertInvite(t, Invite(code, owner, None, now)).Ok?
    ensures var t1 := InsertInvite(t, Invite(code, owner, None, now)).value;
      Join(t1, code, user) == JoinOutcome(Some(owner), JoinOk, t + [Invite(code, owner, Some(user), now)])
  {
    var inv := Invite(code, owner, None, now);
    var t1 := InsertInvite(t, inv).value;
    assert t1 == t + [inv];
    assert forall i :: 0 <= i < |t| ==> t1[i].code != code;
    var k := FindCode(t1, code);
    assert k.Some? by { assert t1[|t|].code == code; }
    assert k.value == |t|;
    JoinCases(t1, code, user);
    assert t1[|t| := inv.(invitedId := Some(user))] == t + [Invite(code, owner, Some(user), now)];
  }
}
