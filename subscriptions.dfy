/** The per-user rule of ChangeChannelSubscription: how one requested level
    changes a user's current subscription level of a channel. */
module Subscriptions {
  import opened Uuids
  import opened Model

  /** model.ChannelSubscribeLevel. The zero value, read for a missing key, is LevelNone. */
  datatype Level = LevelNone | LevelMark | LevelMarkAndNotify

  /** A user's stored level, if any. */
  function Lookup(current: map<Uuid, Level>, uid: Uuid): Option<Level> {
    if uid in current then Some(current[uid]) else None
  }

  /** `current[uid]` in Go: the stored level, or the zero value. */
  function LevelOf(entry: Option<Level>): Level {
    if entry.Some? then entry.value else LevelNone
  }

  /** The user's stored level after one request, given the stored level before
      (None when the user has no entry) and whether the user exists. */
  function NextEntry(entry: Option<Level>, level: Level, keepOffLevel: bool, userExists: bool): (r: Option<Level>)
    ensures r != Some(LevelNone) || entry == Some(LevelNone)
    ensures level == LevelNone ==>
      r == (if entry.Some? && entry.value != LevelNone && !(keepOffLevel && entry.value == LevelMark) then None else entry)
    ensures level != LevelNone ==> r == (if userExists then Some(level) else entry)
  {
    if LevelOf(entry) == level then entry
    else match level
      case LevelNone =>
        if entry.None? then entry
        else if keepOffLevel && LevelOf(entry) == LevelMark then entry
        else None
      case LevelMark =>
        if !userExists then entry else Some(LevelMark)
      case LevelMarkAndNotify =>
        if !userExists then entry else Some(LevelMarkAndNotify)
  }

  /** The request turns notification on for the user: it asks for MarkAndNotify, the
      user exists, and the stored level was something else. */
  predicate TurnsOn(entry: Option<Level>, level: Level, userExists: bool) {
    level == LevelMarkAndNotify && userExists && LevelOf(entry) != LevelMarkAndNotify
  }

  /** Repeating a request changes nothing further and turns nothing on. */
  lemma NextEntryIdempotent(entry: Option<Level>, level: Level, keepOffLevel: bool, userExists: bool)
    ensures var once := NextEntry(entry, level, keepOffLevel, userExists);
      && NextEntry(once, level, keepOffLevel, userExists) == once
      && (userExists && level != LevelNone ==> !TurnsOn(once, level, userExists))
  {
  }
}
