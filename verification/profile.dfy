/** Loading the profile the page shows, as `safeLoadProfile` and the
    `safeLoadProfile() ?? fallback` merge in
    fe_ute_shop/src/pages/ProfileUserPage.tsx do it.

    The browser is reduced to what the loader observes: whether `window`
    exists, whether touching `localStorage` throws, and the string map it
    holds. `JSON.parse` is a parameter `parse`; only the shape of its result
    matters here, because the source casts it to `UserProfile` unchecked. */
module ProfileLoad {
  import opened Wrappers

  /** The `UserProfile` record. */
  datatype UserProfile = UserProfile(
    email: string,
    fullName: string,
    phone: string,
    address: string,
    isVerified: bool)

  /** The hard-coded record shown when nothing usable is stored. */
  const DefaultProfile: UserProfile := UserProfile(
    "user1@test.com",
    "Nguyễn Văn A",
    "0987654321",
    "456 Đường XYZ, Quận 2, TP.HCM",
    true)

  /** The storage key the loader reads. */
  const StorageKey: string := "demo_user_profile"

  /** A value `JSON.parse` can return, as the page sees it after the unchecked
      `as UserProfile` cast: `null`, a record of the profile's shape, or any
      other value (a number, string, boolean or array, or an object with a
      field missing or of the wrong type). */
  datatype JsonValue = JsonNull | ProfileRecord(profile: UserProfile) | OtherValue

  /** `JSON.parse` either throws on malformed text or returns a value. */
  datatype ParseOutcome = SyntaxError | Parsed(value: JsonValue)

  /** `localStorage`: touching it throws (disabled or blocked storage), or it
      is a map from keys to strings. */
  datatype Storage = StorageBlocked | Entries(items: map<string, string>)

  /** Where the page runs: server-side rendering has no `window`. */
  datatype Environment = NoWindow | Browser(storage: Storage)

  /** `localStorage.getItem(StorageKey)` when it neither throws nor is skipped. */
  function StoredText(env: Environment): Option<string> {
    if env.Browser? && env.storage.Entries? && StorageKey in env.storage.items
    then Some(env.storage.items[StorageKey])
    else None
  }

  /** The situations in which the loader yields `null`: no `window`; storage
      that throws; no entry under the key; an empty entry (the only falsy
      string); text `JSON.parse` rejects; text that parses to `null`. */
  predicate LoadsNothing(env: Environment, parse: string -> ParseOutcome) {
    || env.NoWindow?
    || env.storage.StorageBlocked?
    || StorageKey !in env.storage.items
    || env.storage.items[StorageKey] == ""
    || parse(env.storage.items[StorageKey]) == SyntaxError
    || parse(env.storage.items[StorageKey]) == Parsed(JsonNull)
  }

  /** Non-empty stored text that parses to something other than `null` or a
      profile-shaped record. */
  predicate StoresNonRecord(env: Environment, parse: string -> ParseOutcome) {
    && StoredText(env).Some?
    && StoredText(env).value != ""
    && parse(StoredText(env).value) == Parsed(OtherValue)
  }

  // ---------------------------------------------------------------------
  // As written.
  // ---------------------------------------------------------------------

  /** `safeLoadProfile()`. Every failure, including a throwing storage access
      or parse, is caught and becomes `null`; nothing escapes. Otherwise the
      result is exactly what the stored text parses to, unchecked. */
  function SafeLoadProfile(env: Environment, parse: string -> ParseOutcome): (r: JsonValue)
    ensures r == JsonNull <==> LoadsNothing(env, parse)
    ensures r != JsonNull ==> StoredText(env).Some? && parse(StoredText(env).value) == Parsed(r)
  {
    match env
    case NoWindow => JsonNull
    case Browser(StorageBlocked) => JsonNull
    case Browser(Entries(items)) =>
      if StorageKey !in items then JsonNull
      else
        var raw := items[StorageKey];
        if raw == "" then JsonNull
        else match parse(raw)
          case SyntaxError => JsonNull
          case Parsed(v) => v
  }

  /** `safeLoadProfile() ?? fallback`: never `null`; a profile-shaped record
      unless the loader passed on some other value. */
  function DisplayedAsWritten(loaded: JsonValue): (r: JsonValue)
    ensures r != JsonNull
    ensures loaded != JsonNull ==> r == loaded
    ensures loaded == JsonNull ==> r == ProfileRecord(DefaultProfile)
    ensures r.ProfileRecord? <==> loaded != OtherValue
  {
    if loaded == JsonNull then ProfileRecord(DefaultProfile) else loaded
  }

  /** A full record is displayed exactly when the stored text does not parse
      to a value of another shape. */
  lemma FullRecordShownIff(env: Environment, parse: string -> ParseOutcome)
    ensures DisplayedAsWritten(SafeLoadProfile(env, parse)).ProfileRecord?
        <==> !StoresNonRecord(env, parse)
  {
  }

  /** The text "{}" parses to an object with none of the profile's fields,
      and the page displays that object in place of a profile. */
  lemma EmptyObjectIsDisplayed(parse: string -> ParseOutcome)
    requires parse("{}") == Parsed(OtherValue)
    ensures DisplayedAsWritten(SafeLoadProfile(Browser(Entries(map[StorageKey := "{}"])), parse))
         == OtherValue
  {
  }

  // ---------------------------------------------------------------------
  // Corrected: a stored value of the wrong shape counts as nothing loaded.
  // ---------------------------------------------------------------------

  /** The loader with the shape check the cast leaves out. */
  function LoadProfile(env: Environment, parse: string -> ParseOutcome): (r: Option<UserProfile>)
    ensures r == None <==> LoadsNothing(env, parse) || StoresNonRecord(env, parse)
    ensures r.Some? ==>
      StoredText(env).Some? && parse(StoredText(env).value) == Parsed(ProfileRecord(r.value))
  {
    match SafeLoadProfile(env, parse)
    case ProfileRecord(p) => Some(p)
    case _ => None
  }

  /** The profile the page shows: the stored record when there is one, the
      default record otherwise. */
  function ShownProfile(env: Environment, parse: string -> ParseOutcome): (r: UserProfile)
    ensures LoadsNothing(env, parse) || StoresNonRecord(env, parse) ==> r == DefaultProfile
    ensures r == DefaultProfile
         || (StoredText(env).Some? && parse(StoredText(env).value) == Parsed(ProfileRecord(r)))
    ensures !(LoadsNothing(env, parse) || StoresNonRecord(env, parse)) ==>
      StoredText(env).Some? && parse(StoredText(env).value) == Parsed(ProfileRecord(r))
  {
    LoadProfile(env, parse).GetOr(DefaultProfile)
  }

  /** Except for stored values of the wrong shape, the corrected loader shows
      what the page as written shows. */
  lemma CorrectedAgreesOnWellFormedStorage(env: Environment, parse: string -> ParseOutcome)
    requires !StoresNonRecord(env, parse)
    ensures DisplayedAsWritten(SafeLoadProfile(env, parse)) == ProfileRecord(ShownProfile(env, parse))
  {
  }
}
