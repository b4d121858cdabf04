# Feeding-tracker bot: a Dafny model of its tables and conversation state

The bot records infant feedings for an owner and lets one invited helper act
on the owner's records. This project models the stateful core of `bot.py`:

- **the two tables** `feedings(id, user_id, ts_utc, ml)` and
  `invites(code, owner_id, invited_id, created_at)`, as sequences of rows in
  rowid order held by the class `Storage.Store`, whose methods update them in
  place the way the INSERT, DELETE and UPDATE statements do;
- **the read-only queries**: the trailing 24-hour report
  (`Feedings.FeedingsLast24h`), the lookup of the owner of an invited user
  (`Invites.OwnerByInvited`) and the owner resolution
  `get_owner_by_invited(user_id) or user_id` (`Invites.ResolveOwner`), as
  functions of the table contents;
- **the one-shot invite claim** `join_with_code`, as the pure step
  `Invites.Join` plus the method `Storage.Store.JoinWithCode` that performs it;
- **the custom-volume conversation**: the class `Handlers.Conversation` holds
  each user's `awaiting_ml` slot (`context.user_data`) as a map. It models
  `button_handler` (every branch, the `ml_*` ones in full), the custom-volume
  branch of `text_handler` and `cancel_cmd`.

Timestamps are whole seconds (`int`), and the 24-hour window is 86400
seconds. The current instant `now` is a parameter. So are the six alphabet
positions that `secrets.choice` would pick for an invite code.

Python's text handling is modelled where the bot depends on it:
- `str.strip()` uses Python's whitespace set (`str.isspace()`);
- `int()` accepts an optional `+`/`-` sign and ASCII digits, with surrounding
  whitespace from a narrower set: the separators U+001C to U+001F count as
  whitespace for `strip()` but make `int()` raise (`Text.Blanks`);
- `split("_")[1]` reads the button data.

The decimal rendering `IntString` is the partner of the parser: `int(str(n)) == n`.

Things worth knowing about the code as written, all modelled:
- A bad typed volume keeps the `awaiting_ml` slot and re-prompts
  (`bot.py:232-234`). Nothing resets the slot on a parse failure. Only
  `/cancel` or a positive integer clears it.
- The `ml` column is an SQLite INTEGER, a signed 64-bit value
  (`Feedings.IsSqlInteger`). A volume outside that range makes the INSERT
  raise `OverflowError` (`bot.py:55-56`), and nothing is stored. A typed
  volume of that kind has already been popped from the slot (`bot.py:235`), so
  the slot is cleared while no feeding is stored and no reply is sent
  (`FeedingFailed`). A preset `ml_<N>` button with such an `N` fails the same way.
- The inline "cancel" button only edits the message. It does not clear
  `awaiting_ml`.
- The slot test `user_data.get('awaiting_ml')` is a truthiness test, so a
  stored owner id of 0 counts as "nothing pending" (`Conversation.Awaiting`).
- The owner resolution also falls back to the acting user when the owner id
  found is 0. This is Python's `or`.
- `share` creates the invite for the acting user, not for the resolved owner
  (`bot.py:213`). A helper who shares makes someone else a helper of the
  helper's own records.
- A preset `ml_<N>` button commits `int(N)` without a positivity check. Data
  whose field does not parse makes `int()` raise, and nothing is committed
  (`BadButtonData`).
- A duplicate invite code makes the INSERT raise `IntegrityError`. The table
  is left unchanged (`InviteFailed`).
- SQLite leaves three row orders open, and the model fixes each to one
  allowed choice. For `get_owner_by_invited`, the model takes the first
  matching row in table order. For `ORDER BY ts_utc DESC LIMIT 1`, the model
  takes the earliest row among those with the latest timestamp. For
  `ORDER BY ts_utc ASC`, the model keeps table order among equal timestamps.
  The contracts of `Storage.Store.DeleteLastFeeding` (some latest row of the
  owner is removed) and `Feedings.FeedingsLast24h` (an ascending permutation
  of the owner's rows in the window) hold for any of the allowed choices.

Modules: `Common` (Option, Result), `Text`, `Feedings`, `Invites`, `Storage`,
`Handlers`.

## Model

| member | source | states |
|---|---|---|
| `Text.IsSpace` | bot.py:224 | the character set of Python's `str.isspace()`, which `strip()` removes; a predicate, used by the `Text.Strip` contracts |
| `Text.IsBlank` | bot.py:178-229 | the whitespace a trim skips: all of `IsSpace` for `strip()` (`StrSpaces`, line 224), and the same set without U+001C to U+001F for `int()` (`IntSpaces`, lines 178 and 229); a predicate, used by the `Text.Strip` and `Text.PyInt` contracts |
| `Text.TrimStart` | bot.py:224 | for either whitespace set: the result is a suffix of the input, what was dropped is all whitespace, and the result does not start with whitespace |
| `Text.TrimEnd` | bot.py:224 | for either whitespace set: the result is a prefix of the input, what was dropped is all whitespace, and the result does not end with whitespace |
| `Text.Strip` | bot.py:224 | `strip()` leaves no whitespace at either end and never grows the text |
| `Text.StripSlice` | bot.py:224 | what `strip()` keeps is one contiguous slice of the input, and both parts it drops are whitespace |
| `Text.StripTight` | bot.py:224 | text without whitespace at its ends is left unchanged |
| `Text.StripTwice` | bot.py:224 | `strip()` is idempotent |
| `Text.StrippedIsIntTight` | bot.py:224-229 | after `strip()` there is nothing left for `int()` to skip, so `int()` sees the stripped text as is |
| `Text.StripPadded` | bot.py:224 | stripping `pre + core + post` with padding from the same whitespace set gives back `core` |
| `Text.UpTo` | bot.py:178 | the field before the first separator: a prefix without the separator, ended by the separator or by the end of the text |
| `Text.NatDigits` | bot.py:141-146 | the decimal rendering of a natural number, as in the preset data `ml_90` to `ml_210`, is a non-empty run of ASCII digits; it is the partner of `int()` at bot.py:178 |
| `Text.IntString` | bot.py:229 | `str(n)`, the decimal rendering of an integer, is non-empty; it is the partner of `int()` in the round-trip lemmas |
| `Text.NatDigitsValue` | bot.py:141-146 | the digits of the rendering of `n`, as written in the preset data, have the value `n` |
| `Text.ParseDecimal` | bot.py:229 | `int()` of already stripped text: an optional sign then one or more ASCII digits, otherwise `None` for `ValueError`; no `ensures`, specified by `Text.ParseDecimalRoundTrip` and `Text.PyIntRejects` |
| `Text.PyInt` | bot.py:229 | `int(s)`: surrounding `int()` whitespace is ignored, then `Text.ParseDecimal`; no `ensures`, specified by `Text.PyIntRoundTrip`, `Text.PyIntString` and `Text.PyIntRejects` |
| `Text.ParseDecimalRoundTrip` | bot.py:229 | `int()` of the rendering of any integer, negative ones included, gives it back |
| `Text.PyIntRoundTrip` | bot.py:229 | `int(pre + str(n) + post) == n` for any padding that `int()` skips |
| `Text.PyIntString` | bot.py:229 | `int(str(n)) == n` for every integer, with no padding |
| `Text.PyIntNatDigits` | bot.py:178 | `int()` of the digits of a natural number gives it back; derived from `Text.PyIntString` |
| `Text.PyIntRejects` | bot.py:228-232 | text holding a character that is neither a digit, a sign nor `int()` whitespace makes `int()` fail; the separators U+001C to U+001F are such characters |
| `Feedings.IsSqlInteger` | bot.py:38 | the range of an SQLite INTEGER, -2^63 to 2^63-1; a predicate, used through `Feedings.Storable` by `Storage.Store.AddFeeding` and directly by the contracts of `Handlers.Conversation.PressButton`, `Handlers.Conversation.ReceiveText` and `Handlers.CustomVolumeFlow` |
| `Feedings.Storable` | bot.py:55-56 | a volume the driver can bind: NULL or a 64-bit INTEGER, the type of the `ml` column at bot.py:38; a predicate, the success condition in the contract of `Storage.Store.AddFeeding` |
| `Feedings.Matches` | bot.py:65-87 | the WHERE conditions `user_id = ? AND ts_utc >= ?` (line 65), `user_id = ?` (lines 74 and 87) and the rows a `DELETE ... WHERE id = ?` (line 79) or `WHERE user_id = ?` keeps; a predicate, specified through `Feedings.Select` |
| `Feedings.Select` | bot.py:65 | a WHERE clause keeps exactly the rows that satisfy it, and never adds rows |
| `Feedings.Project` | bot.py:65-69 | the report columns `(ts_utc, ml)` of each row, position by position |
| `Feedings.Insert` | bot.py:65 | inserting into an ascending report keeps it ascending and adds exactly that entry, which lands in front only when it is no later than the old head |
| `Feedings.AscendingCons` | bot.py:65 | an entry no later than the head of an ascending report can be put in front of it |
| `Feedings.SortByTs` | bot.py:65 | `ORDER BY ts_utc ASC` yields an ascending permutation of its input |
| `Feedings.FeedingsLast24h` | bot.py:60-69 | the report is ascending by timestamp and is a permutation of the owner's rows with `ts >= now - 24h` |
| `Feedings.Last24hMembers` | bot.py:60-69 | an entry is in the report exactly when some row of the owner inside the window has that timestamp and volume |
| `Feedings.Last24hAfterInsert` | bot.py:52-69 | after an insert, the report gains that one entry when the row is the owner's and inside the window, and is otherwise unchanged |
| `Feedings.Last24hOwnRows` | bot.py:65 | an owner's report depends only on that owner's rows |
| `Feedings.SelectNarrow` | bot.py:65 | filtering by owner and window equals filtering by owner first, then by window |
| `Feedings.LatestRow` | bot.py:74-75 | row `k` is one of the owner's rows with the latest timestamp; a predicate, used by the contracts of `Feedings.LatestIndex`, `Storage.Store.DeleteLastFeeding` and `Handlers.Conversation.PressButton` |
| `Feedings.LatestIndex` | bot.py:74-75 | no index exactly when the owner has no rows; otherwise an index of one of the owner's rows whose timestamp is the latest of the owner's rows |
| `Feedings.SelectAppend` | bot.py:55 | a WHERE clause over rows appended to a table selects the old selection followed by the new one |
| `Feedings.ProjectAppend` | bot.py:55 | projection distributes over appending rows |
| `Feedings.SelectSplitCount` | bot.py:87-88 | the owner's rows and everyone else's rows together count the whole table |
| `Feedings.SelectOtherOwner` | bot.py:87 | deleting one owner's rows leaves every other owner's rows, in order |
| `Feedings.SelectWithoutRow` | bot.py:79 | removing a row a filter rejects does not change what the filter selects |
| `Feedings.SelectAll` | bot.py:79 | a filter every row passes returns the table unchanged |
| `Feedings.DeleteByIdRemovesRow` | bot.py:79 | with unique ids, `DELETE ... WHERE id = ?` on row `k`'s id removes exactly row `k` |
| `Invites.AlphabetChars` | bot.py:94 | position `k` of `ascii_uppercase + digits` is the `k`-th letter, or digit `k - 26` |
| `Invites.CodeFromDraws` | bot.py:94 | a drawn code has one character per draw, each an uppercase letter or a digit |
| `Invites.CharIndex` | bot.py:94 | every uppercase letter and digit sits at some position of the alphabet |
| `Invites.EveryCodeDrawable` | bot.py:94 | every string of uppercase letters and digits is a possible drawn code |
| `Invites.FindCode` | bot.py:106-107 | the first row with the code, or none exactly when no row has it |
| `Invites.InsertInvite` | bot.py:97-98 | the INSERT fails, with `IntegrityError`, exactly when the code is already present; otherwise it appends the row and keeps codes unique |
| `Invites.OwnerByInvited` | bot.py:120-126 | none exactly when no row was claimed by the user; otherwise the owner of a row the user claimed |
| `Invites.OwnerByInvitedFirst` | bot.py:123-126 | the answer is the owner of the first row the user claimed |
| `Invites.ResolveOwner` | bot.py:166 | a user without a claim acts for themselves; a user acting for someone else claimed an invite of that owner |
| `Invites.ResolveFirstClaim` | bot.py:166 | the first claim decides the owner, and an owner id of 0 falls back to the user |
| `Invites.JoinCases` | bot.py:103-118 | `not_found` exactly when no row has the code, `already_used` exactly when it is claimed, `ok` exactly when it is unclaimed; only `ok` changes the table, binding just that row to the user and returning its owner |
| `Invites.JoinOnce` | bot.py:112-115 | a second claim on a code, by anyone, never succeeds and changes nothing; after a successful claim it reports `already_used` |
| `Invites.SetInvited` | bot.py:115 | `UPDATE invites SET invited_id = ? WHERE code = ?`; no `ensures`, specified by `Invites.FindCodeAfterSet`, `Invites.JoinFrame` and `Invites.JoinCases` |
| `Invites.Join` | bot.py:103-118 | `join_with_code` as one step on the table; no `ensures`, specified by `Invites.JoinCases` and `Invites.JoinOnce` |
| `Invites.FindCodeSameCodes` | bot.py:106-115 | the lookup by code depends only on the code column, row by row |
| `Invites.FindCodeAfterSet` | bot.py:115 | the claiming UPDATE keeps codes, so the code still finds the same row |
| `Invites.JoinFrame` | bot.py:115 | a claim leaves rows of other codes and already claimed rows untouched |
| `Invites.JoinKeepsUniqueCodes` | bot.py:115 | a claim keeps the code column a primary key |
| `Invites.JoinThenResolve` | bot.py:103-126 | right after a user's first successful claim, the user resolves to the inviting owner |
| `Invites.InsertThenJoin` | bot.py:93-118 | a freshly created code is unclaimed: the first claim on it succeeds and returns its owner |
| `Storage.Store.constructor` | bot.py:30-50 | both tables start empty and the invariants hold |
| `Storage.Store.AddFeeding` | bot.py:52-58 | stores exactly when the volume is absent or fits SQLite's 64-bit INTEGER (`OverflowError` otherwise, bot.py:38 and 55-56); a stored row is appended with a fresh id and the given user, timestamp and volume; a failed insert changes nothing; the invites table never changes |
| `Storage.Store.DeleteLastFeeding` | bot.py:71-82 | returns false and changes nothing when the owner has no rows; otherwise returns true and removes exactly one row, one of the owner's latest; other owners' rows are untouched |
| `Storage.Store.DeleteAllFeedings` | bot.py:84-91 | removes exactly the owner's rows and returns their number; other owners' rows stay in order |
| `Storage.Store.CreateInviteCode` | bot.py:93-101 | inserts the drawn six-character code unclaimed; fails with `IntegrityError` and changes nothing exactly when the code is taken |
| `Storage.Store.JoinWithCode` | bot.py:103-118 | performs the claim step: `ok` exactly for an unclaimed code, no change otherwise, and claimed rows are never rebound |
| `Storage.DropRowKeepsIds` | bot.py:79 | removing one row keeps the ids unique and below the counter |
| `Storage.SelectKeepsIds` | bot.py:87 | deleting rows keeps the ids unique and below the counter |
| `Handlers.IsMlData` | bot.py:171 | `data.startswith("ml_")`; a predicate, used by `Handlers.ParseButton` and as the precondition of `Handlers.ButtonVolume` |
| `Handlers.ButtonVolume` | bot.py:178 | the volume `int(data.split("_")[1])` of a volume button, parsed from the unstripped field; no `ensures`, specified by `Handlers.PresetButtonVolume` and `Handlers.ButtonVolumeRejectsSeparator` |
| `Handlers.ButtonVolumeRejectsSeparator` | bot.py:178 | a field that starts with one of U+001C to U+001F makes `int()` raise, even though `strip()` would treat that character as whitespace |
| `Handlers.PresetButtonVolume` | bot.py:178 | the data `ml_<N>` of a preset button yields the volume `N` |
| `Handlers.UpToWithoutSep` | bot.py:178 | text without the separator is one whole field |
| `Handlers.ParseButton` | bot.py:168-211 | the `if`/`elif` chain on the callback data, in its order; no `ensures`, specified by `Handlers.FixedButtons` and `Handlers.PresetButton` |
| `Handlers.FixedButtons` | bot.py:168-211 | each fixed callback data string reaches its own branch of the handler |
| `Handlers.PresetButton` | bot.py:171-180 | `ml_<N>` reaches the preset branch with volume `N` |
| `Handlers.TypedVolume` | bot.py:228-231 | an accepted typed volume is always positive |
| `Handlers.TypedVolumeAccepts` | bot.py:228-232 | a typed integer, with any `strip()` whitespace padding, is accepted exactly when it is positive |
| `Handlers.StripRendering` | bot.py:224 | `strip()` of a rendered integer with whitespace padding gives back the rendering |
| `Handlers.TypedVolumeOverflow` | bot.py:228-237 | a typed volume beyond the 64-bit range is accepted by the parse but cannot be stored |
| `Handlers.Conversation.constructor` | bot.py:157 | no user has a pending custom volume |
| `Handlers.Conversation.Awaiting` | bot.py:227 | the truthiness test `user_data.get('awaiting_ml')`, also at bot.py:272: a slot is set and holds a non-zero owner id; a predicate, used by the contracts of `ReceiveText` and `CancelCommand` |
| `Handlers.Conversation.PressButton` | bot.py:158-219 | acts for the resolved owner: `ml_custom` sets the slot; a preset commits one feeding and advances the id counter when its volume fits the 64-bit column, and otherwise fails with `OverflowError` and changes nothing; `stats`, `del_last` and `del_all` query or delete that owner's rows; `share` creates an invite for the acting user; the deletes and `share` keep the id counter; the slot changes only on `ml_custom` |
| `Handlers.Conversation.ReceiveText` | bot.py:221-244 | with a pending slot, a positive integer clears the slot and, when it fits the 64-bit column, commits one feeding for the stored owner and advances the id counter; when it does not fit, it fails with `OverflowError` and stores nothing; any other text keeps the slot and changes nothing; without a slot nothing changes |
| `Handlers.Conversation.CancelCommand` | bot.py:271-276 | clears a pending slot and says so; otherwise reports nothing pending and leaves the slot map unchanged |
| `Handlers.CustomVolumeFlow` | bot.py:171-241 | `ml_custom`, then any rejected text (slot kept, nothing stored), then any accepted text clears the slot and commits exactly one feeding of its volume, with the user as owner, or stores nothing when the volume does not fit the 64-bit column |
| `Handlers.PressCustomOnFreshStore` | bot.py:166-176 | on empty tables, `ml_custom` makes the user their own owner and stores the user in the slot |
| `Handlers.RejectsAbc` | bot.py:228-233 | `abc` is not an accepted volume |

## Left out

- Telegram transport: message texts, keyboards (`main_keyboard`, `amount_keyboard`), `query.answer()` and the `async` dispatch. Each handler returns a `Reply` tag with the data it would show.
- `start`, `help_cmd`, `share_cmd` and `join_cmd` are left out. They only format replies around operations that are modelled. The upper-casing of the `/join` argument is not modelled, because Python's `str.upper` is Unicode case mapping.
- The SQLite connection, cursor and commit plumbing, and `run()` with its environment configuration. The tables are in-memory sequences, and `init_db` is the `Store` constructor.
- `datetime.now`, time zones and `strftime`: `now` is a parameter and local-time display is not modelled.
- Timestamps are integer seconds. The ISO-8601 strings that the SQL compares as text, and their microseconds, are not modelled.
- `secrets.choice`: the six alphabet positions are passed in. The `created_at` of an invite is the `now` parameter.
- `Text.PyInt`: `int()` is modelled for ASCII digits with an optional sign. Digit-group underscores (`1_000`) and non-ASCII decimal digits, which Python also accepts, are treated as invalid. Python's limit of 4300 digits for `int()` and `str()` is not modelled: a Telegram message holds at most 4096 characters and callback data at most 64 bytes, so no input reaches it.
- User ids are taken to fit SQLite's 64-bit INTEGER, as Telegram ids do. An id outside that range would make every statement that binds it raise, and this is not modelled.
- `Storage.Store.JoinWithCode`: the SELECT and the UPDATE run as one atomic step. The race between two concurrent `/join` calls is concurrency and is not modelled.
- Exceptions that end a handler (`ValueError` from bad button data, `IntegrityError` from a duplicate code, `OverflowError` from a volume too large for the column) become reply tags. The error logging of the library is not modelled.
- Reminders, custom feeding times and the reminder-choice state do not exist in `bot.py` and are not modelled.
