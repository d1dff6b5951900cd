/** The avatar initials of a display name, as `initialsOf` in
    fe_ute_shop/src/pages/ProfileUserPage.tsx computes them:
    `name.trim().split(/\s+/).filter(Boolean)`, then "?" for no token, the
    upper-cased first character of a single token, or the upper-cased first
    characters of the first and last tokens.

    Which characters are white space (`ws`) and how text is upper-cased
    (`upper`) are parameters: nothing below depends on the Unicode tables
    behind `\s`, `trim` and `toUpperCase`. */
module NameInitials {

  /** The result for a name without any token. */
  const Placeholder: string := "?"

  predicate AllWs(s: string, ws: char -> bool) {
    forall i :: 0 <= i < |s| ==> ws(s[i])
  }

  predicate NoWs(s: string, ws: char -> bool) {
    forall i :: 0 <= i < |s| ==> !ws(s[i])
  }

  /** A token: a non-empty run of non-white-space characters. */
  predicate IsWord(w: string, ws: char -> bool) {
    |w| > 0 && NoWs(w, ws)
  }

  /** The only assumption made about upper-casing: it does not map a
      non-empty string to the empty one. It may lengthen its input. */
  ghost predicate NonErasing(upper: string -> string) {
    forall t :: |t| > 0 ==> |upper(t)| > 0
  }

  // ---------------------------------------------------------------------
  // The source's pipeline: trim, split on white-space runs, drop empties.
  // ---------------------------------------------------------------------

  /** Removes leading white space. Lemma TrimStartShape says what was removed. */
  function TrimStart(s: string, ws: char -> bool): (r: string)
    ensures |r| <= |s|
    ensures r == [] || !ws(r[0])
    decreases |s|
  {
    if |s| > 0 && ws(s[0]) then TrimStart(s[1..], ws) else s
  }

  /** TrimStart drops a white-space prefix and keeps the rest as it is. */
  lemma {:induction false} TrimStartShape(s: string, ws: char -> bool)
    ensures var r := TrimStart(s, ws);
      && s == s[..|s| - |r|] + r
      && AllWs(s[..|s| - |r|], ws)
    decreases |s|
  {
    if |s| > 0 && ws(s[0]) {
      TrimStartShape(s[1..], ws);
      var r := TrimStart(s, ws);
      var k := |s| - |r|;
      assert s[1..] == s[1..][..k - 1] + r;
      assert s[..k] == [s[0]] + s[1..][..k - 1];
    }
  }

  /** Removes trailing white space. */
  function TrimEnd(s: string, ws: char -> bool): (r: string)
    ensures |r| <= |s| && r == s[..|r|]
    ensures AllWs(s[|r|..], ws)
    ensures r == [] || !ws(r[|r| - 1])
    decreases |s|
  {
    if |s| > 0 && ws(s[|s| - 1]) then
      var r := TrimEnd(s[..|s| - 1], ws);
      assert s[|r|..] == s[..|s| - 1][|r|..] + [s[|s| - 1]];
      r
    else
      s
  }

  /** `String.prototype.trim`: removes white space at both ends. */
  function Trim(s: string, ws: char -> bool): (r: string)
    ensures r == [] <==> AllWs(s, ws)
    ensures r != [] ==> !ws(r[0]) && !ws(r[|r| - 1])
  {
    var t := TrimStart(s, ws);
    var r := TrimEnd(t, ws);
    TrimBothEnds(s, ws);
    r
  }

  lemma {:induction false} TrimBothEnds(s: string, ws: char -> bool)
    ensures var r := TrimEnd(TrimStart(s, ws), ws);
      && (r == [] <==> AllWs(s, ws))
      && (r != [] ==> !ws(r[0]) && !ws(r[|r| - 1]))
  {
    var t := TrimStart(s, ws);
    var r := TrimEnd(t, ws);
    var k := |s| - |t|;
    TrimStartShape(s, ws);
    AllWsConcat(s[..k], t, ws);
    if r == [] {
      assert t[|r|..] == t;
    } else {
      assert r[0] == t[0];
    }
  }

  lemma {:induction false} AllWsConcat(a: string, b: string, ws: char -> bool)
    ensures AllWs(a + b, ws) <==> AllWs(a, ws) && AllWs(b, ws)
  {
    if AllWs(a, ws) && AllWs(b, ws) {
      forall i | 0 <= i < |a + b| ensures ws((a + b)[i]) {
        if i >= |a| { assert (a + b)[i] == b[i - |a|]; }
      }
    }
    if AllWs(a + b, ws) {
      forall i | 0 <= i < |a| ensures ws(a[i]) {
        assert (a + b)[i] == a[i];
      }
      forall i | 0 <= i < |b| ensures ws(b[i]) {
        assert (a + b)[|a| + i] == b[i];
      }
    }
  }

  /** `s.split(/\s+/)`: the pieces between maximal white-space runs. A run at
      either end yields an empty first or last piece, and the empty string
      splits into one empty piece. */
  function Split(s: string, ws: char -> bool): (parts: seq<string>)
    ensures |parts| > 0
    ensures forall i :: 0 <= i < |parts| ==> NoWs(parts[i], ws)
    ensures |s| > 0 && !ws(s[0]) ==> |parts[0]| > 0
    decreases |s|
  {
    if |s| == 0 then
      [[]]
    else if ws(s[0]) then
      [[]] + Split(TrimStart(s[1..], ws), ws)
    else
      var t := Split(s[1..], ws);
      [[s[0]] + t[0]] + t[1..]
  }

  /** `parts.filter(Boolean)`: keeps the non-empty pieces, in order. */
  function DropEmpty(parts: seq<string>): (r: seq<string>)
    ensures forall i :: 0 <= i < |r| ==> |r[i]| > 0
    ensures forall w :: w in r <==> w in parts && w != []
    ensures (forall i :: 0 <= i < |parts| ==> |parts[i]| > 0) ==> r == parts
  {
    if |parts| == 0 then []
    else if parts[0] == [] then DropEmpty(parts[1..])
    else [parts[0]] + DropEmpty(parts[1..])
  }

  /** `filter` keeps pieces in their order: filtering a concatenation is
      filtering each part and concatenating the results. */
  lemma {:induction false} DropEmptyAppend(a: seq<string>, b: seq<string>)
    ensures DropEmpty(a + b) == DropEmpty(a) + DropEmpty(b)
    decreases |a|
  {
    if a == [] {
      assert a + b == b;
    } else {
      assert (a + b)[0] == a[0];
      assert (a + b)[1..] == a[1..] + b;
      DropEmptyAppend(a[1..], b);
    }
  }

  /** The tokens `initialsOf` looks at. */
  function Tokens(name: string, ws: char -> bool): (r: seq<string>)
    ensures forall i :: 0 <= i < |r| ==> IsWord(r[i], ws)
    ensures r == [] <==> AllWs(name, ws)
  {
    var t := Trim(name, ws);
    var parts := Split(t, ws);
    assert t == [] ==> parts == [[]];
    assert t != [] ==> parts[0] in DropEmpty(parts);
    var r := DropEmpty(parts);
    forall i | 0 <= i < |r| ensures IsWord(r[i], ws) {
      assert r[i] in parts;
    }
    r
  }

  /** `initialsOf(name)`. The contract gives the white-space-only case and
      non-emptiness; lemma InitialsOfLayout gives the full case split. */
  function InitialsOf(name: string, upper: string -> string, ws: char -> bool): (r: string)
    ensures AllWs(name, ws) ==> r == Placeholder
    ensures NonErasing(upper) ==> |r| > 0
  {
    var parts := Tokens(name, ws);
    if |parts| == 0 then Placeholder
    else if |parts| == 1 then upper([parts[0][0]])
    else upper([parts[0][0], parts[|parts| - 1][0]])
  }

  // ---------------------------------------------------------------------
  // Reference view of a name: words separated by white space.
  // ---------------------------------------------------------------------

  /** A name written as `seps[0] + words[0] + seps[1] + words[1] + ... + trail`:
      `seps[i]` is the white space before `words[i]`. */
  function Layout(words: seq<string>, seps: seq<string>, trail: string): string
    requires |seps| == |words|
    decreases |words|
  {
    if |words| == 0 then trail
    else seps[0] + words[0] + Layout(words[1..], seps[1..], trail)
  }

  /** The words are tokens, the separators are white space, and every word
      after the first is separated from its predecessor by at least one
      white-space character. */
  predicate ValidLayout(words: seq<string>, seps: seq<string>, trail: string, ws: char -> bool) {
    && |seps| == |words|
    && (forall i :: 0 <= i < |words| ==> IsWord(words[i], ws))
    && (forall i :: 0 <= i < |seps| ==> AllWs(seps[i], ws))
    && (forall i :: 0 < i < |seps| ==> |seps[i]| > 0)
    && AllWs(trail, ws)
  }

  /** The words of a name together with the white space around them. */
  datatype Decomposition = Decomposition(words: seq<string>, seps: seq<string>, trail: string)

  /** The length of the run of non-white-space characters `s` starts with. */
  function WordEnd(s: string, ws: char -> bool): (n: nat)
    ensures n <= |s| && NoWs(s[..n], ws)
    ensures n == |s| || ws(s[n])
    ensures |s| > 0 && !ws(s[0]) ==> n > 0
    decreases |s|
  {
    if |s| == 0 || ws(s[0]) then 0
    else
      var n := WordEnd(s[1..], ws);
      assert s[..n + 1] == [s[0]] + s[1..][..n];
      n + 1
  }

  /** Cuts any name into its words and the white space around them. */
  function Decompose(s: string, ws: char -> bool): (d: Decomposition)
    ensures DecomposesTo(s, d, ws)
    decreases |s|
  {
    var rest := TrimStart(s, ws);
    if rest == [] then
      TrimStartShape(s, ws);
      Decomposition([], [], s)
    else
      var n := WordEnd(rest, ws);
      var d := Decompose(rest[n..], ws);
      DecomposeCons(s, d, ws);
      Decomposition([rest[..n]] + d.words, [s[..|s| - |rest|]] + d.seps, d.trail)
  }

  /** `d` is a valid layout of `s`; when `s` starts with white space that
      white space precedes the first word. */
  predicate DecomposesTo(s: string, d: Decomposition, ws: char -> bool) {
    && ValidLayout(d.words, d.seps, d.trail, ws)
    && Layout(d.words, d.seps, d.trail) == s
    && (|d.words| > 0 && |s| > 0 && ws(s[0]) ==> |d.seps[0]| > 0)
    && (|s| == 0 ==> |d.words| == 0)
  }

  lemma {:induction false} DecomposeCons(s: string, d: Decomposition, ws: char -> bool)
    requires TrimStart(s, ws) != []
    requires DecomposesTo(TrimStart(s, ws)[WordEnd(TrimStart(s, ws), ws)..], d, ws)
    ensures var rest := TrimStart(s, ws);
      var n := WordEnd(rest, ws);
      DecomposesTo(s, Decomposition([rest[..n]] + d.words, [s[..|s| - |rest|]] + d.seps, d.trail), ws)
  {
    var rest := TrimStart(s, ws);
    var n := WordEnd(rest, ws);
    var lead := s[..|s| - |rest|];
    LeadBeforeWord(s, ws);
    assert rest == rest[..n] + rest[n..];
    ConsLayout(lead, rest[..n], rest[n..], d, ws);
    assert lead + (rest[..n] + rest[n..]) == s;
  }

  lemma {:induction false} LeadBeforeWord(s: string, ws: char -> bool)
    ensures var rest := TrimStart(s, ws);
      && s == s[..|s| - |rest|] + rest
      && AllWs(s[..|s| - |rest|], ws)
      && (|s| > 0 && ws(s[0]) && rest != [] ==> |s| - |rest| > 0)
  {
    TrimStartShape(s, ws);
    var rest := TrimStart(s, ws);
    assert |s| == |rest| ==> s == rest;
  }

  /** Prepending white space and a word to a layout gives a layout. */
  lemma {:induction false} ConsLayout(lead: string, w: string, tail: string, d: Decomposition, ws: char -> bool)
    requires AllWs(lead, ws) && IsWord(w, ws)
    requires ValidLayout(d.words, d.seps, d.trail, ws)
    requires Layout(d.words, d.seps, d.trail) == tail
    requires |d.words| > 0 ==> |d.seps[0]| > 0
    ensures ValidLayout([w] + d.words, [lead] + d.seps, d.trail, ws)
    ensures Layout([w] + d.words, [lead] + d.seps, d.trail) == lead + (w + tail)
  {
    var words := [w] + d.words;
    var seps := [lead] + d.seps;
    assert words[1..] == d.words && seps[1..] == d.seps;
    assert forall i :: 0 < i < |words| ==> words[i] == d.words[i - 1];
    assert forall i :: 0 < i < |seps| ==> seps[i] == d.seps[i - 1];
  }

  // ---------------------------------------------------------------------
  // The pipeline recovers exactly the words of a layout.
  // ---------------------------------------------------------------------

  lemma {:induction false} LayoutTrail(words: seq<string>, seps: seq<string>, trail: string)
    requires |seps| == |words|
    ensures Layout(words, seps, trail) == Layout(words, seps, []) + trail
    decreases |words|
  {
    if |words| > 0 {
      LayoutTrail(words[1..], seps[1..], trail);
      var rest := Layout(words[1..], seps[1..], []);
      assert seps[0] + words[0] + (rest + trail) == seps[0] + words[0] + rest + trail;
    }
  }

  /** A layout without trailing white space ends with a word character. */
  lemma {:induction false} LayoutEndsInWord(words: seq<string>, seps: seq<string>, ws: char -> bool)
    requires |words| > 0 && |seps| == |words|
    requires forall i :: 0 <= i < |words| ==> IsWord(words[i], ws)
    ensures var c := Layout(words, seps, []); |c| > 0 && !ws(c[|c| - 1])
    decreases |words|
  {
    var rest := Layout(words[1..], seps[1..], []);
    var c := Layout(words, seps, []);
    assert c == (seps[0] + words[0]) + rest;
    if |words| == 1 {
      assert c[|c| - 1] == words[0][|words[0]| - 1];
    } else {
      assert IsWord(words[1..][0], ws);
      LayoutEndsInWord(words[1..], seps[1..], ws);
      assert c[|c| - 1] == rest[|rest| - 1];
    }
  }

  lemma {:induction false} TrimStartSkips(g: string, x: string, ws: char -> bool)
    requires AllWs(g, ws)
    ensures TrimStart(g + x, ws) == TrimStart(x, ws)
    decreases |g|
  {
    if g == [] {
      assert g + x == x;
    } else {
      assert (g + x)[0] == g[0];
      assert (g + x)[1..] == g[1..] + x;
      TrimStartSkips(g[1..], x, ws);
    }
  }

  lemma {:induction false} TrimEndSkips(x: string, g: string, ws: char -> bool)
    requires AllWs(g, ws)
    ensures TrimEnd(x + g, ws) == TrimEnd(x, ws)
    decreases |g|
  {
    if g == [] {
      assert x + g == x;
    } else {
      var n := |x + g|;
      assert (x + g)[n - 1] == g[|g| - 1];
      assert (x + g)[..n - 1] == x + g[..|g| - 1];
      TrimEndSkips(x, g[..|g| - 1], ws);
    }
  }

  /** Trimming removes exactly the white space around a word-bounded core. */
  lemma {:induction false} TrimPadded(g1: string, c: string, g2: string, ws: char -> bool)
    requires AllWs(g1, ws) && AllWs(g2, ws)
    requires |c| > 0 && !ws(c[0]) && !ws(c[|c| - 1])
    ensures Trim(g1 + c + g2, ws) == c
  {
    assert g1 + c + g2 == g1 + (c + g2);
    TrimStartSkips(g1, c + g2, ws);
    assert (c + g2)[0] == c[0];
    TrimEndSkips(c, g2, ws);
  }

  /** Splitting a string that starts with a run of non-white-space characters
      glues that run onto the first piece. */
  lemma {:induction false} SplitWordPrefix(w: string, rest: string, ws: char -> bool)
    requires NoWs(w, ws)
    ensures var t := Split(rest, ws);
      Split(w + rest, ws) == [w + t[0]] + t[1..]
    decreases |w|
  {
    var t := Split(rest, ws);
    if w == [] {
      assert w + rest == rest;
      assert w + t[0] == t[0];
      assert [t[0]] + t[1..] == t;
    } else {
      assert (w + rest)[0] == w[0];
      assert (w + rest)[1..] == w[1..] + rest;
      SplitWordPrefix(w[1..], rest, ws);
      assert [w[0]] + (w[1..] + t[0]) == w + t[0];
    }
  }

  /** Splitting a layout with no white space at either end yields its words. */
  lemma {:induction false} SplitCore(words: seq<string>, seps: seq<string>, ws: char -> bool)
    requires ValidLayout(words, seps, [], ws)
    requires |words| > 0 && seps[0] == []
    ensures Split(Layout(words, seps, []), ws) == words
    decreases |words|
  {
    var w0 := words[0];
    var rest := Layout(words[1..], seps[1..], []);
    assert Layout(words, seps, []) == w0 + rest;
    SplitWordPrefix(w0, rest, ws);
    if |words| == 1 {
      assert w0 + [] == w0;
    } else {
      var g := seps[1];
      var w1 := words[1];
      var tail := Layout(words[2..], seps[2..], []);
      assert words[1..][1..] == words[2..] && seps[1..][1..] == seps[2..];
      assert rest == g + w1 + tail;
      assert rest[0] == g[0];
      assert rest[1..] == g[1..] + (w1 + tail);
      TrimStartSkips(g[1..], w1 + tail, ws);
      assert (w1 + tail)[0] == w1[0];
      var seps' := [[]] + seps[2..];
      assert words[1..][0] == w1 && seps'[1..] == seps[2..];
      assert Layout(words[1..], seps', []) == w1 + tail;
      assert ValidLayout(words[1..], seps', [], ws) by {
        assert forall i :: 0 <= i < |words[1..]| ==> words[1..][i] == words[i + 1];
        assert forall i :: 0 < i < |seps'| ==> seps'[i] == seps[i + 1];
      }
      SplitCore(words[1..], seps', ws);
      assert w0 + [] == w0;
      assert [w0] + words[1..] == words;
    }
  }

  /** Round trip: the tokens of a name written as words and white space are
      exactly those words, whatever the white space. */
  lemma {:induction false} TokensOfLayout(words: seq<string>, seps: seq<string>, trail: string, ws: char -> bool)
    requires ValidLayout(words, seps, trail, ws)
    ensures Tokens(Layout(words, seps, trail), ws) == words
  {
    if |words| > 0 {
      var seps' := [[]] + seps[1..];
      var core := Layout(words, seps', []);
      assert seps'[1..] == seps[1..];
      LayoutTrail(words, seps, trail);
      assert core == words[0] + Layout(words[1..], seps[1..], []);
      assert Layout(words, seps, trail) == seps[0] + core + trail;
      assert ValidLayout(words, seps', [], ws) by {
        assert forall i :: 0 < i < |seps'| ==> seps'[i] == seps[i];
      }
      LayoutEndsInWord(words, seps', ws);
      assert core[0] == words[0][0];
      TrimPadded(seps[0], core, trail, ws);
      SplitCore(words, seps', ws);
    }
  }

  /** Every name is a layout of its tokens: Decompose's words are the tokens,
      so the tokens are the one word sequence any layout of the name has. */
  lemma {:induction false} TokensAreTheWords(name: string, ws: char -> bool)
    ensures Decompose(name, ws).words == Tokens(name, ws)
  {
    var d := Decompose(name, ws);
    TokensOfLayout(d.words, d.seps, d.trail, ws);
  }

  // ---------------------------------------------------------------------
  // initialsOf, stated on the words of a name.
  // ---------------------------------------------------------------------

  /** The case split of `initialsOf`: "?" without words, the upper-cased first
      character of a single word, otherwise the upper-cased first characters
      of the first and the last word. */
  lemma {:induction false} InitialsOfLayout(words: seq<string>, seps: seq<string>, trail: string,
                                            upper: string -> string, ws: char -> bool)
    requires ValidLayout(words, seps, trail, ws)
    ensures var r := InitialsOf(Layout(words, seps, trail), upper, ws);
      && (|words| == 0 ==> r == Placeholder)
      && (|words| == 1 ==> r == upper([words[0][0]]))
      && (|words| >= 2 ==> r == upper([words[0][0], words[|words| - 1][0]]))
  {
    TokensOfLayout(words, seps, trail, ws);
  }

  /** The same case split for every name, over the words Decompose finds in
      it. */
  lemma {:induction false} InitialsOfEveryName(name: string, upper: string -> string, ws: char -> bool)
    ensures var words := Decompose(name, ws).words;
      var r := InitialsOf(name, upper, ws);
      && (|words| == 0 ==> r == Placeholder)
      && (|words| == 1 ==> r == upper([words[0][0]]))
      && (|words| >= 2 ==> r == upper([words[0][0], words[|words| - 1][0]]))
  {
    var d := Decompose(name, ws);
    InitialsOfLayout(d.words, d.seps, d.trail, upper, ws);
  }

  /** Leading, trailing and repeated inner white space do not change the
      initials: only the words matter. */
  lemma {:induction false} InitialsIgnoreSpacing(words: seq<string>, seps: seq<string>, trail: string,
                                                 seps': seq<string>, trail': string,
                                                 upper: string -> string, ws: char -> bool)
    requires ValidLayout(words, seps, trail, ws) && ValidLayout(words, seps', trail', ws)
    ensures InitialsOf(Layout(words, seps, trail), upper, ws)
         == InitialsOf(Layout(words, seps', trail'), upper, ws)
  {
    TokensOfLayout(words, seps, trail, ws);
    TokensOfLayout(words, seps', trail', ws);
  }

  /** With two or more words only the first character of the first and of the
      last word matter; the words in between never do. */
  lemma {:induction false} MiddleWordsIgnored(words: seq<string>, seps: seq<string>, trail: string,
                                              words': seq<string>, seps': seq<string>, trail': string,
                                              upper: string -> string, ws: char -> bool)
    requires ValidLayout(words, seps, trail, ws) && ValidLayout(words', seps', trail', ws)
    requires |words| >= 2 && |words'| >= 2
    requires words[0][0] == words'[0][0]
    requires words[|words| - 1][0] == words'[|words'| - 1][0]
    ensures InitialsOf(Layout(words, seps, trail), upper, ws)
         == InitialsOf(Layout(words', seps', trail'), upper, ws)
  {
    TokensOfLayout(words, seps, trail, ws);
    TokensOfLayout(words', seps', trail', ws);
  }

  // ---------------------------------------------------------------------
  // The white space of ECMAScript, and the default profile's name.
  // ---------------------------------------------------------------------

  /** The characters ECMAScript's `trim` and `\s` both treat as white space:
      its WhiteSpace set (TAB, VT, FF, SPACE, NO-BREAK SPACE, ZERO WIDTH
      NO-BREAK SPACE and the Unicode space separators) and its
      LineTerminator set (LF, CR, LINE SEPARATOR, PARAGRAPH SEPARATOR). */
  predicate EcmaWhitespace(c: char) {
    || c == '\t' || c == '\U{000B}' || c == '\U{000C}' || c == ' '
    || c == '\U{00A0}' || c == '\U{FEFF}' || c == '\U{1680}'
    || ('\U{2000}' <= c <= '\U{200A}')
    || c == '\U{202F}' || c == '\U{205F}' || c == '\U{3000}'
    || c == '\n' || c == '\r' || c == '\U{2028}' || c == '\U{2029}'
  }

  /** The default profile's name "Nguyễn Văn A" has the initials "NA",
      upper-cased (whatever upper-casing does). */
  lemma {:induction false} DefaultNameInitials(upper: string -> string)
    ensures InitialsOf("Nguyễn Văn A", upper, EcmaWhitespace) == upper("NA")
  {
    var words := ["Nguyễn", "Văn", "A"];
    var seps := ["", " ", " "];
    assert Layout(words, seps, "") == "Nguyễn Văn A" by {
      assert Layout(words[2..], seps[2..], "") == " A";
      assert Layout(words[1..], seps[1..], "") == " Văn A";
    }
    assert ValidLayout(words, seps, "", EcmaWhitespace);
    InitialsOfLayout(words, seps, "", upper, EcmaWhitespace);
  }
}
