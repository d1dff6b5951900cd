# Profile page logic of FE_UTE_SHOP, modelled in Dafny

The user-profile page of the shop front end (`ProfileUserPage.tsx`) reads a
cached `UserProfile` from `localStorage`, falls back to a hard-coded record
when nothing usable is stored, derives avatar initials from the user's full
name and shows a verification badge. Everything else on the page is layout.
This project models that logic as pure functions and proves what it does.

- `wrappers.dfy` — `Option`, the model's `null`.
- `initials.dfy` (module `NameInitials`) — `initialsOf`: `trim`, `split(/\s+/)`
  and `filter(Boolean)` written out one by one, the three-way case split, and
  a reference view of a name as words separated by white space (`Layout`,
  `Decompose`). The central result is the round trip `TokensOfLayout`: the
  tokens of any name written as words and white space are exactly those words.
  White space and upper-casing are parameters (`ws`, `upper`); the only thing
  assumed of upper-casing, and only where needed, is that it keeps a
  non-empty string non-empty (`NonErasing`). `EcmaWhitespace` is the set
  ECMAScript's `trim` and `\s` use, applied to the page's default name.
- `profile.dfy` (module `ProfileLoad`) — `safeLoadProfile` over an abstract
  environment (`window` present or not, storage that throws or a string
  map) and an abstract `JSON.parse`, the `?? fallback` merge as written, and
  the corrected loader the rest of the model uses (see Findings).
- `view.dfy` (module `ProfileView`) — the badge mapping and the rendered
  card, as a record of what is displayed.

Two behaviours of the code are easy to miss and are modelled as the code
has them: stored text that parses to
`null` also yields nothing (then the default is shown), and a throwing
storage access is caught like a parse failure. The page is meant to always
show a fully populated record; the code does not guarantee that (see
Findings).

## Model

| member | source | states |
|---|---|---|
| NameInitials.Trim | fe_ute_shop/src/pages/ProfileUserPage.tsx:12 | `trim` leaves nothing exactly when the name is all white space, and otherwise what it leaves starts and ends with a non-white-space character |
| NameInitials.TrimPadded | fe_ute_shop/src/pages/ProfileUserPage.tsx:12 | `trim` removes exactly the white space around a core that starts and ends with a non-white-space character |
| NameInitials.Split | fe_ute_shop/src/pages/ProfileUserPage.tsx:12 | `split(/\s+/)` always yields at least one piece, no piece contains white space, and a string starting with a non-white-space character has a non-empty first piece |
| NameInitials.DropEmpty | fe_ute_shop/src/pages/ProfileUserPage.tsx:12 | `filter(Boolean)` keeps the same non-empty pieces and drops every empty one, and leaves a list without empty pieces unchanged; order and count are stated by NameInitials.DropEmptyAppend |
| NameInitials.DropEmptyAppend | fe_ute_shop/src/pages/ProfileUserPage.tsx:12 | `filter(Boolean)` keeps pieces in order: filtering a concatenation is the concatenation of the filtered parts |
| NameInitials.SplitCore | fe_ute_shop/src/pages/ProfileUserPage.tsx:12 | `split(/\s+/)` of words separated by white space, with no white space at either end, yields exactly those words in order |
| NameInitials.Tokens | fe_ute_shop/src/pages/ProfileUserPage.tsx:12 | every token is a non-empty run without white space, and there are no tokens exactly when the name is empty or all white space |
| NameInitials.InitialsOf | fe_ute_shop/src/pages/ProfileUserPage.tsx:11-16 | a name that is empty or all white space gives "?"; if upper-casing keeps non-empty text non-empty, the result is never empty, for every input |
| NameInitials.Decompose | fe_ute_shop/src/pages/ProfileUserPage.tsx:12 | every name can be written as words (non-empty, no white space) separated by non-empty white space, with optional white space at both ends |
| NameInitials.TokensOfLayout | fe_ute_shop/src/pages/ProfileUserPage.tsx:12 | round trip: the trim/split/filter pipeline applied to words laid out with any white space returns exactly those words |
| NameInitials.TokensAreTheWords | fe_ute_shop/src/pages/ProfileUserPage.tsx:12 | for every name, its tokens are the words of its decomposition, so they are the one word sequence any layout of the name has |
| NameInitials.InitialsOfLayout | fe_ute_shop/src/pages/ProfileUserPage.tsx:13-15 | no words give "?", one word gives the upper-casing of its first character, two or more give the upper-casing of the first character of the first word followed by that of the last word |
| NameInitials.InitialsOfEveryName | fe_ute_shop/src/pages/ProfileUserPage.tsx:11-16 | for every name, the initials follow the three-way case split over the words the name decomposes into |
| NameInitials.InitialsIgnoreSpacing | fe_ute_shop/src/pages/ProfileUserPage.tsx:12 | leading, trailing and repeated inner white space never change the initials: two layouts of the same words have the same initials |
| NameInitials.MiddleWordsIgnored | fe_ute_shop/src/pages/ProfileUserPage.tsx:15 | with two or more words the initials depend only on the first characters of the first and last words; the middle words never matter |
| NameInitials.DefaultNameInitials | fe_ute_shop/src/pages/ProfileUserPage.tsx:33 | under ECMAScript white space the default name "Nguyễn Văn A" has the initials upper("NA") |
| ProfileLoad.SafeLoadProfile | fe_ute_shop/src/pages/ProfileUserPage.tsx:18-27 | the loader yields null exactly when there is no window, storage throws, the key is absent, the entry is the empty string, the parse fails, or the text parses to null; otherwise it yields exactly what the stored text parses to, unchecked; no case raises |
| ProfileLoad.DisplayedAsWritten | fe_ute_shop/src/pages/ProfileUserPage.tsx:42 | the `?? fallback` merge is never null, keeps any non-null loaded value, replaces a null load by the default record of lines 31-37, and is a profile-shaped record exactly when the loaded value is not of another shape |
| ProfileLoad.FullRecordShownIff | fe_ute_shop/src/pages/ProfileUserPage.tsx:18-42 | as written, a full record is displayed if and only if the stored text does not parse to a value of another shape |
| ProfileLoad.EmptyObjectIsDisplayed | fe_ute_shop/src/pages/ProfileUserPage.tsx:23 | as written, storing the text "{}" makes the page display an object with none of the profile's fields |
| ProfileLoad.LoadProfile | fe_ute_shop/src/pages/ProfileUserPage.tsx:18-27 | corrected loader: nothing exactly in the loader's null cases or when the stored value has the wrong shape; otherwise the record the stored text parses to |
| ProfileLoad.ShownProfile | fe_ute_shop/src/pages/ProfileUserPage.tsx:30-42 | corrected: the shown record is the default whenever nothing usable is stored or the stored value has the wrong shape, and otherwise exactly the stored record |
| ProfileLoad.CorrectedAgreesOnWellFormedStorage | fe_ute_shop/src/pages/ProfileUserPage.tsx:42 | whenever the stored value is not of the wrong shape, the corrected page shows the same record as the page as written |
| ProfileView.BadgeFor | fe_ute_shop/src/pages/ProfileUserPage.tsx:74-86 | verified gives "Đã xác minh" in emerald, unverified gives "Chưa xác minh" in amber; pill and dot always share a colour; label and colour each determine the flag |
| ProfileView.RenderCard | fe_ute_shop/src/pages/ProfileUserPage.tsx:62-119 | the card shows the record's four text fields unchanged, the badge (label, pill and dot colour) its flag calls for, and the initials of its full name; the record reads back from the card |
| ProfileView.Page | fe_ute_shop/src/pages/ProfileUserPage.tsx:29-127 | corrected: the page displays exactly the corrected loader's record, and its badge follows that record's flag |
| ProfileView.NothingStoredShowsDefault | fe_ute_shop/src/pages/ProfileUserPage.tsx:30-42 | corrected: with nothing usable stored, or a stored value of the wrong shape, the page shows the default record: user1@test.com, initials upper("NA") and the emerald verified badge |
| ProfileView.StoredRecordShown | fe_ute_shop/src/pages/ProfileUserPage.tsx:42-119 | a stored profile-shaped record is displayed field for field, with its own initials and the badge its flag calls for |

## Left out

- JSX layout and Tailwind class strings (lines 44-126): presentation only; the badge colour is kept as a colour family (`Tone`) for pill and dot.
- Real `localStorage` and `JSON.parse`: storage is a string map that may throw on access, and the parser is the parameter `parse`; JSON itself is not modelled and no schema check is claimed for the code as written.
- `JsonValue.OtherValue` lumps together every non-null value not of the profile's shape. What the page then does with it (a blank field, an unverified badge, or a `TypeError` from `initialsOf(undefined)`) depends on which fields are missing and is not modelled.
- The `useMemo` read-once caching (lines 30 and 42): an optimisation. The model's functions are pure, so loading twice from the same storage gives the same record by construction.
- Unicode tables: `toUpperCase` is the parameter `upper` and white space the parameter `ws`. Only `NonErasing(upper)` is assumed, and only for non-emptiness. Nothing bounds the length of the initials, because upper-casing can lengthen text ("ß" becomes "SS").
- Characters are Unicode scalar values, not UTF-16 code units. For a token that starts with a character outside the Basic Multilingual Plane, `charAt(0)` returns half a surrogate pair; the model takes the whole character.
- ProfileLoad.ShownProfile: models the corrected loader (see Findings); for a stored value of the wrong shape it gives the default record, where line 42 as written keeps that value. The as-written behaviour is DisplayedAsWritten.
- ProfileView.Page: renders the corrected loader's record; as written, a stored value of the wrong shape reaches the render at line 63, which is not modelled.
- ProfileView.NothingStoredShowsDefault: describes the corrected page; as written, the default is shown only in the LoadsNothing cases (FullRecordShownIff).
- NameInitials.InitialsOf: its own contract states only the white-space-only case and non-emptiness; the one- and two-token cases are stated by NameInitials.InitialsOfLayout over the words of a name.

## Findings

| source | as written | input that shows it | evidently intended | confidence | as-written member | corrected member |
|---|---|---|---|---|---|---|
| fe_ute_shop/src/pages/ProfileUserPage.tsx:23 | `JSON.parse(raw) as UserProfile` is returned without checking its shape, and `?? fallback` only replaces `null` | stored text `{}` under `demo_user_profile`: the page displays an object without `fullName`, and `initialsOf(undefined)` throws while rendering | a stored value that is not a complete profile falls back to the default record, like every other unusable value | medium; not executed | ProfileLoad.EmptyObjectIsDisplayed | ProfileLoad.ShownProfile |
