/** What `ProfileView` in fe_ute_shop/src/pages/ProfileUserPage.tsx puts on
    the card: the avatar initials, the four text fields as they are, and a
    verification badge whose label and colour follow `isVerified`. Layout and
    class strings are not modelled; a badge colour is the Tailwind colour
    family its pill and dot use. */
module ProfileView {
  import opened ProfileLoad
  import opened NameInitials

  /** The colour family of a badge part: emerald or amber. */
  datatype Tone = Emerald | Amber

  /** The badge: its text, the colour of the pill and of the dot inside it. */
  datatype Badge = Badge(text: string, pill: Tone, dot: Tone)

  const VerifiedLabel: string := "Đã xác minh"
  const UnverifiedLabel: string := "Chưa xác minh"

  /** The badge for a verification flag: verified is an emerald "Đã xác minh",
      unverified an amber "Chưa xác minh"; pill and dot always agree. */
  function BadgeFor(isVerified: bool): (b: Badge)
    ensures b.pill == b.dot
    ensures b.pill == Emerald <==> isVerified
    ensures b.text == VerifiedLabel <==> isVerified
    ensures b.text == VerifiedLabel || b.text == UnverifiedLabel
  {
    if isVerified then Badge(VerifiedLabel, Emerald, Emerald)
    else Badge(UnverifiedLabel, Amber, Amber)
  }

  /** The profile card as rendered. */
  datatype Card = Card(
    initials: string,
    fullName: string,
    email: string,
    phone: string,
    address: string,
    badge: Badge)

  /** Renders a record. Names are split on ECMAScript white space, as the
      browser's `trim` and `\s` do. */
  function RenderCard(p: UserProfile, upper: string -> string): (c: Card)
    ensures c.initials == InitialsOf(p.fullName, upper, EcmaWhitespace)
    ensures c.badge == BadgeFor(p.isVerified)
    ensures RecordOf(c) == p
  {
    Card(InitialsOf(p.fullName, upper, EcmaWhitespace), p.fullName, p.email, p.phone, p.address,
         BadgeFor(p.isVerified))
  }

  /** Reads the record back off a card: the text fields as shown and the flag
      from the badge label. */
  function RecordOf(c: Card): UserProfile {
    UserProfile(c.email, c.fullName, c.phone, c.address, c.badge.text == VerifiedLabel)
  }

  /** The page with the corrected loader: load once, fall back to the
      default for anything that is not a full record, render. */
  function Page(env: Environment, parse: string -> ParseOutcome, upper: string -> string): (c: Card)
    ensures RecordOf(c) == ShownProfile(env, parse)
    ensures c.badge == BadgeFor(RecordOf(c).isVerified)
  {
    RenderCard(ShownProfile(env, parse), upper)
  }

  /** With nothing usable stored (no `window` included), the corrected page
      shows the default record: user1@test.com, initials "NA", an emerald
      verified badge. As written, the page does so in the LoadsNothing cases
      only. */
  lemma NothingStoredShowsDefault(env: Environment, parse: string -> ParseOutcome,
                                           upper: string -> string)
    requires LoadsNothing(env, parse) || StoresNonRecord(env, parse)
    ensures var c := Page(env, parse, upper);
      && RecordOf(c) == DefaultProfile
      && c.email == "user1@test.com"
      && c.initials == upper("NA")
      && c.badge == Badge(VerifiedLabel, Emerald, Emerald)
  {
    DefaultNameInitials(upper);
  }

  /** A stored profile-shaped record is shown field for field, with the
      badge its own flag calls for. */
  lemma StoredRecordShown(env: Environment, parse: string -> ParseOutcome,
                                   upper: string -> string, p: UserProfile)
    requires StoredText(env).Some? && StoredText(env).value != ""
    requires parse(StoredText(env).value) == Parsed(ProfileRecord(p))
    ensures var c := Page(env, parse, upper);
      && RecordOf(c) == p
      && c.initials == InitialsOf(p.fullName, upper, EcmaWhitespace)
      && c.badge == BadgeFor(p.isVerified)
  {
  }
}
