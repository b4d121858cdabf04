/**
 * The chat handlers' effects: the button handler (`add`, `ml_*`, `cancel`,
 * `stats`, `del_last`, `del_all`, `share`), the free-text handler that
 * consumes a pending custom volume, and the `/cancel` command. Messages and
 * keyboards are reduced to a `Reply` tag carrying the data they show.
 */
module Handlers {
  import opened Common
  import opened Text
  import opened Feedings
  import opened Invites
  import opened Storage

  /** What a handler answers with. */
  datatype Reply =
    | AmountMenu                              // "add": the volume keyboard
    | AskCustomVolume                         // "ml_custom": prompt for a number
    | FeedingAdded(owner: int, ts: int, ml: int)
    | BadButtonData                           // int() on the button data raised ValueError
    | CancelledByButton                       // "cancel" button
    | NoFeedings                              // "stats" with an empty window
    | Stats(entries: seq<Entry>)              // "stats": the window, ascending
    | DeletedLast
    | NothingToDelete
    | DeletedAll(count: nat)
    | InviteCreated(code: string)
    | InviteFailed(error: StoreError)         // the invite INSERT raised
    | FeedingFailed(error: StoreError)        // the feeding INSERT raised: the handler ends without a message
    | InvalidVolume                           // bad custom volume: reprompt
    | InputCancelled                          // "/cancel" with a pending volume
    | NoActiveInput                           // "/cancel" with nothing pending
    | UseMenu                                 // text with nothing pending
    | NoAnswer                                // callback data no branch handles

  /** The branch of `button_handler` that callback data selects. */
  datatype Button =
    | AddButton                         // "add"
    | CustomVolumeButton                // "ml_custom"
    | PresetVolumeButton(volume: Option<int>)  // any other "ml_..." data, with its parsed volume
    | CancelButton                      // "cancel"
    | StatsButton                       // "stats"
    | DeleteLastButton                  // "del_last"
    | DeleteAllButton                   // "del_all"
    | ShareButton                       // "share"
    | UnknownButton                     // anything else: no branch runs

  /** The `if`/`elif` chain of `button_handler`, in its order. */
  function ParseButton(data: string): Button
  {
    if data == "add" then AddButton
    else if IsMlData(data) then
      if data == "ml_custom" then CustomVolumeButton else PresetVolumeButton(ButtonVolume(data))
    else if data == "cancel" then CancelButton
    else if data == "stats" then StatsButton
    else if data == "del_last" then DeleteLastButton
    else if data == "del_all" then DeleteAllButton
    else if data == "share" then ShareButton
    else UnknownButton
  }

  /** The fixed callback data of the keyboards reach the branches they are meant for. */
  lemma FixedButtons()
    ensures ParseButton("add") == AddButton
    ensures ParseButton("ml_custom") == CustomVolumeButton
    ensures ParseButton("cancel") == CancelButton
    ensures ParseButton("stats") == StatsButton
    ensures ParseButton("del_last") == DeleteLastButton
    ensures ParseButton("del_all") == DeleteAllButton
    ensures ParseButton("share") == ShareButton
  {
    assert IsMlData("ml_custom") by { assert "ml_custom"[..3] == "ml_"; }
    assert !IsMlData("cancel") by { assert "cancel"[0] == 'c'; }
    assert !IsMlData("stats") by { assert "stats"[0] == 's'; }
    assert !IsMlData("del_last") by { assert "del_last"[0] == 'd'; }
    assert !IsMlData("del_all") by { assert "del_all"[0] == 'd'; }
    assert !IsMlData("share") by { assert "share"[0] == 's'; }
  }

  /** The data `ml_<N>` of a preset volume button commits the volume `N`. */
  lemma PresetButton(n: nat)
    ensures ParseButton("ml_" + NatDigits(n)) == PresetVolumeButton(Some(n))
  {
    PresetButtonVolume(n);
    var data := "ml_" + NatDigits(n);
    assert IsDigit(data[3]);
    assert data != "add" by { assert |"add"| == 3; }
    assert data != "ml_custom" by { assert "ml_custom"[3] == 'c'; }
  }

  /** The callback data of a volume button: starts with `ml_`. */
  predicate IsMlData(data: string)
  {
    |data| >= 3 && data[..3] == "ml_"
  }

  /** `int(data.split("_")[1])` for volume-button data. */
  function ButtonVolume(data: string): Option<int>
    requires IsMlData(data)
  {
    PyInt(UpTo(data[3..], '_'))
  }

  /** The volume `text_handler` accepts: `int(text.strip())` when it succeeds and is above 0. */
  function TypedVolume(text: string): (r: Option<int>)
    ensures r.Some? ==> r.value > 0
  {
    var parsed := PyInt(Strip(StrSpaces, text));
    if parsed.Some? && parsed.value > 0 then parsed else None
  }

  /** A preset button's data, `ml_<N>`, yields the volume `N` it was built from. */
  lemma PresetButtonVolume(n: nat)
    ensures IsMlData("ml_" + NatDigits(n))
    ensures ButtonVolume("ml_" + NatDigits(n)) == Some(n)
  {
    var digits := NatDigits(n);
    var data := "ml_" + digits;
    assert data[3..] == digits;
    UpToWithoutSep(digits, '_');
    PyIntNatDigits(n);
  }

  lemma UpToWithoutSep(s: string, sep: char)
    requires sep !in s
    ensures UpTo(s, sep) == s
  {
  }

  /** Typing a number's rendering, with any surrounding whitespace, is accepted exactly when it is positive. */
  lemma TypedVolumeAccepts(pre: string, n: int, post: string)
    requires AllBlank(StrSpaces, pre) && AllBlank(StrSpaces, post)
    ensures TypedVolume(pre + IntString(n) + post) == if n > 0 then Some(n) else None
  {
    StripRendering(pre, n, post);
    PyIntString(n);
  }

  /** `strip()` takes the whitespace padding off a number's rendering. */
  lemma StripRendering(pre: string, n: int, post: string)
    requires AllBlank(StrSpaces, pre) && AllBlank(StrSpaces, post)
    ensures Strip(StrSpaces, pre + IntString(n) + post) == IntString(n)
  {
    var core := IntString(n);
    assert core[0] == '-' || IsDigit(core[0]);
    assert IsDigit(core[|core| - 1]);
    StripPadded(StrSpaces, pre, core, post);
  }

  /**
   * Every number above SQLite's INTEGER range is an accepted typed volume,
   * so the overflow case of `ReceiveText` is reachable. Python's own limit of
   * 4300 digits for `int()` lies far beyond what a Telegram message can carry.
   */
  lemma TypedVolumeOverflow(n: int)
    requires n > SqlIntegerMax
    ensures TypedVolume(IntString(n)) == Some(n) && !IsSqlInteger(n)
  {
    var s := IntString(n);
    assert [] + s + [] == s;
    TypedVolumeAccepts([], n, []);
  }

  /**
   * `int()` does not skip the separators U+001C to U+001F, although
   * `str.isspace()` counts them as whitespace: preset data carrying one
   * before its digits does not parse.
   */
  lemma ButtonVolumeRejectsSeparator(c: char, n: nat)
    requires 0x1C <= c as int <= 0x1F
    ensures IsMlData("ml_" + [c] + NatDigits(n))
    ensures ButtonVolume("ml_" + [c] + NatDigits(n)) == None
  {
    var field := [c] + NatDigits(n);
    var data := "ml_" + [c] + NatDigits(n);
    assert data[..3] == "ml_";
    assert data[3..] == field;
    assert '_' !in field by {
      assert forall i :: 1 <= i < |field| ==> IsDigit(field[i]);
    }
    UpToWithoutSep(field, '_');
    PyIntRejects(field, 0);
  }

  class Conversation {
    /** The database the handlers share. */
    const store: Store
    /** `context.user_data['awaiting_ml']` of each user: the owner a custom volume is for. */
    var awaitingMl: map<int, int>

    ghost predicate Valid()
      reads this, store
    {
      store.Valid()
    }

    constructor (store: Store)
      requires store.Valid()
      ensures Valid() && this.store == store && awaitingMl == map[]
    {
      this.store := store;
      awaitingMl := map[];
    }

    /** `context.user_data.get('awaiting_ml')` is truthy: a slot is set and holds a non-zero id. */
    predicate Awaiting(user: int)
      reads this
    {
      user in awaitingMl && awaitingMl[user] != 0
    }

    /**
     * `button_handler`: resolves the owner the user acts for, then runs the
     * branch the callback data selects. `draws` are the alphabet positions
     * the random generator would pick for a `share` code.
     */
    method PressButton(user: int, data: string, now: int, draws: seq<nat>) returns (reply: Reply)
      requires Valid()
      requires |draws| == CodeLength && ValidDraws(draws)
      modifies this, store
      ensures Valid()
      ensures ParseButton(data) != CustomVolumeButton ==> awaitingMl == old(awaitingMl)
      ensures var owner := ResolveOwner(old(store.invites), user);
        match ParseButton(data)
        case AddButton => reply == AmountMenu && unchanged(store)
        case CustomVolumeButton =>
          reply == AskCustomVolume && awaitingMl == old(awaitingMl)[user := owner] && unchanged(store)
        case PresetVolumeButton(None) => reply == BadButtonData && unchanged(store)
        case PresetVolumeButton(Some(ml)) =>
          if IsSqlInteger(ml) then
            && reply == FeedingAdded(owner, now, ml)
            && store.feedings == old(store.feedings) + [Feeding(old(store.nextId), owner, now, Some(ml))]
            && store.invites == old(store.invites) && store.nextId > old(store.nextId)
          else reply == FeedingFailed(OverflowError) && unchanged(store)
        case CancelButton => reply == CancelledByButton && unchanged(store)
        case StatsButton =>
          var entries := FeedingsLast24h(old(store.feedings), owner, now);
          reply == (if entries == [] then NoFeedings else Stats(entries)) && unchanged(store)
        case DeleteLastButton =>
          && store.invites == old(store.invites) && store.nextId == old(store.nextId)
          && (reply == DeletedLast || reply == NothingToDelete)
          && (reply == DeletedLast <==> exists i :: 0 <= i < |old(store.feedings)| && old(store.feedings)[i].userId == owner)
          && (reply == DeletedLast ==>
                exists k :: LatestRow(old(store.feedings), owner, k) && store.feedings == old(store.feedings)[..k] + old(store.feedings)[k + 1..])
          && (reply == NothingToDelete ==> store.feedings == old(store.feedings))
        case DeleteAllButton =>
          && reply == DeletedAll(|Select(old(store.feedings), UserIs(owner))|)
          && store.feedings == Select(old(store.feedings), UserIsNot(owner))
          && store.invites == old(store.invites) && store.nextId == old(store.nextId)
        case ShareButton =>
          && store.feedings == old(store.feedings) && store.nextId == old(store.nextId)
          && (reply == InviteCreated(CodeFromDraws(draws)) || reply == InviteFailed(IntegrityError))
          && (reply == InviteFailed(IntegrityError) <==>
                exists i :: 0 <= i < |old(store.invites)| && old(store.invites)[i].code == CodeFromDraws(draws))
          && (reply == InviteFailed(IntegrityError) ==> store.invites == old(store.invites))
          && (reply == InviteCreated(CodeFromDraws(draws)) ==>
                store.invites == old(store.invites) + [Invite(CodeFromDraws(draws), user, None, now)])
        case UnknownButton => reply == NoAnswer && unchanged(store)
    {
      var owner := ResolveOwner(store.invites, user);
      match ParseButton(data)
      case AddButton =>
        reply := AmountMenu;
      case CustomVolumeButton =>
        awaitingMl := awaitingMl[user := owner];
        reply := AskCustomVolume;
      case PresetVolumeButton(volume) =>
        if volume.None? {
          return BadButtonData;
        }
        var stored := store.AddFeeding(owner, now, Some(volume.value));
        reply := if stored then FeedingAdded(owner, now, volume.value) else FeedingFailed(OverflowError);
      case CancelButton =>
        reply := CancelledByButton;
      case StatsButton =>
        var entries := FeedingsLast24h(store.feedings, owner, now);
        reply := if entries == [] then NoFeedings else Stats(entries);
      case DeleteLastButton =>
        var found := store.DeleteLastFeeding(owner);
        reply := if found then DeletedLast else NothingToDelete;
      case DeleteAllButton =>
        var deleted := store.DeleteAllFeedings(owner);
        reply := DeletedAll(deleted);
      case ShareButton =>
        var created := store.CreateInviteCode(user, draws, now);
        reply := match created
          case Ok(code) => InviteCreated(code)
          case Err(e) => InviteFailed(e);
      case UnknownButton =>
        reply := NoAnswer;
    }

    /**
     * `text_handler`: with a pending custom volume, a positive integer clears
     * the slot and commits one feeding for the stored owner, unless it is too
     * large for SQLite's INTEGER, in which case the slot is gone and nothing
     * is stored; anything else keeps the slot and asks again. Without a
     * pending volume, points at the menu.
     */
    method ReceiveText(user: int, text: string, now: int) returns (reply: Reply)
      requires Valid()
      modifies this, store
      ensures Valid()
      ensures !old(Awaiting(user)) ==> reply == UseMenu && awaitingMl == old(awaitingMl) && unchanged(store)
      ensures old(Awaiting(user)) && TypedVolume(text).None? ==>
        reply == InvalidVolume && awaitingMl == old(awaitingMl) && unchanged(store)
      ensures old(Awaiting(user)) && TypedVolume(text).Some? ==>
        var owner := old(awaitingMl[user]);
        var ml := TypedVolume(text).value;
        && awaitingMl == old(awaitingMl) - {user}
        && if IsSqlInteger(ml) then
             && reply == FeedingAdded(owner, now, ml)
             && store.feedings == old(store.feedings) + [Feeding(old(store.nextId), owner, now, Some(ml))]
             && store.invites == old(store.invites) && store.nextId > old(store.nextId)
           else reply == FeedingFailed(OverflowError) && unchanged(store)
    {
      if !Awaiting(user) {
        return UseMenu;
      }
      var volume := TypedVolume(text);
      if volume.None? {
        return InvalidVolume;
      }
      var owner := awaitingMl[user];
      awaitingMl := awaitingMl - {user};
      var stored := store.AddFeeding(owner, now, volume);
      reply := if stored then FeedingAdded(owner, now, volume.value) else FeedingFailed(OverflowError);
    }

    /** `/cancel`: clears a pending custom volume, and says whether there was one. */
    method CancelCommand(user: int) returns (reply: Reply)
      modifies this
      ensures old(Awaiting(user)) ==> reply == InputCancelled && awaitingMl == old(awaitingMl) - {user}
      ensures !old(Awaiting(user)) ==> reply == NoActiveInput && awaitingMl == old(awaitingMl)
    {
      if Awaiting(user) {
        awaitingMl := awaitingMl - {user};
        reply := InputCancelled;
      } else {
        reply := NoActiveInput;
      }
    }
  }

  /**
   * A user with no invite presses `ml_custom` (any data that parses as that
   * button, such as the literal one, see `FixedButtons`), types a rejected
   * text, then an accepted one (such as a padded positive number, see
   * `TypedVolumeAccepts`): the bad text keeps the prompt open and adds
   * nothing; the good one closes the prompt and adds exactly one feeding of
   * its volume for the user, or nothing when the volume overflows SQLite's
   * INTEGER (see `TypedVolumeOverflow`).
   */
  method CustomVolumeFlow(user: int, data: string, now: int, bad: string, good: string, draws: seq<nat>)
    returns (first: Reply, second: Reply, third: Reply, rows: seq<Feeding>, pending: bool)
    requires ParseButton(data) == CustomVolumeButton && user != 0
    requires TypedVolume(bad).None? && TypedVolume(good).Some?
    requires |draws| == CodeLength && ValidDraws(draws)
    ensures first == AskCustomVolume && second == InvalidVolume && !pending
    ensures var ml := TypedVolume(good).value;
      if IsSqlInteger(ml) then
        && third == FeedingAdded(user, now, ml)
        && |rows| == 1 && rows[0].userId == user && rows[0].ts == now && rows[0].ml == Some(ml)
      else third == FeedingFailed(OverflowError) && rows == []
  {
    var conversation;
    conversation, first := PressCustomOnFreshStore(user, data, now, draws);
    assert conversation.Awaiting(user);
    second := conversation.ReceiveText(user, bad, now);
    assert conversation.Awaiting(user) && conversation.store.feedings == [];
    third := conversation.ReceiveText(user, good, now);
    rows := conversation.store.feedings;
    pending := conversation.Awaiting(user);
  }

  /** The first step of `CustomVolumeFlow`: on empty tables, the user is their own owner and the slot holds them. */
  method PressCustomOnFreshStore(user: int, data: string, now: int, draws: seq<nat>)
    returns (conversation: Conversation, reply: Reply)
    requires ParseButton(data) == CustomVolumeButton && user != 0
    requires |draws| == CodeLength && ValidDraws(draws)
    ensures fresh(conversation) && fresh(conversation.store) && conversation.Valid()
    ensures reply == AskCustomVolume && conversation.awaitingMl == map[user := user]
    ensures conversation.store.feedings == []
  {
    var store := new Store();
    conversation := new Conversation(store);
    assert ResolveOwner(store.invites, user) == user;
    reply := conversation.PressButton(user, data, now, draws);
  }

  /** The text `abc` is not a volume. */
  lemma RejectsAbc()
    ensures TypedVolume("abc") == None
  {
    var s := "abc";
    assert Strip(StrSpaces, s) == s by {
      assert !IsBlank(StrSpaces, s[0]) && !IsBlank(StrSpaces, s[2]);
      StripTight(StrSpaces, s);
    }
    assert PyInt(s) == None by {
      assert !IsBlank(IntSpaces, s[0]) && !IsDigit(s[0]);
      PyIntRejects(s, 0);
    }
  }

}
