/**
 Subject slugs: the words of a description, lower-cased and joined by single hyphens. Unicode itself enters as
 functions: the two normal forms, which characters are combining marks, letters or digits, and lower-casing.
 */
module Slugs {
  import opened Common

  datatype Unicode = Unicode(decompose: string -> string, compose: string -> string, isMark: char -> bool,
                             isLetterOrDigit: char -> bool, lower: char -> char)

  /** The hyphen is no letter or digit, and no letter or digit lower-cases to one. */
  ghost predicate HyphenIsSeparator(u: Unicode) {
    !u.isLetterOrDigit('-') && forall c :: u.isLetterOrDigit(c) ==> u.lower(c) != '-'
  }

  function WithoutMarks(u: Unicode, text: string): string {
    if text == [] then []
    else
      var init, c := text[..|text| - 1], text[|text| - 1];
      if u.isMark(c) then WithoutMarks(u, init) else WithoutMarks(u, init) + [c]
  }

  function Deaccented(u: Unicode, description: string): string {
    u.compose(WithoutMarks(u, u.decompose(description)))
  }

  /** The maximal runs of letters and digits, lower-cased. */
  function Words(u: Unicode, text: string): (words: seq<string>)
    ensures forall i | 0 <= i < |words| :: words[i] != []
    ensures text != [] && u.isLetterOrDigit(text[|text| - 1]) ==> words != []
  {
    if text == [] then []
    else
      var n := |text| - 1;
      var before := Words(u, text[..n]);
      if !u.isLetterOrDigit(text[n]) then before
      else if n > 0 && u.isLetterOrDigit(text[n - 1])
        then before[|before| - 1 := before[|before| - 1] + [u.lower(text[n])]]
      else before + [[u.lower(text[n])]]
  }

  function Join(words: seq<string>): string {
    if words == [] then ""
    else if |words| == 1 then words[0]
    else Join(words[..|words| - 1]) + "-" + words[|words| - 1]
  }

  lemma JoinOneMore(words: seq<string>, word: string)
    ensures Join(words + [word]) == if words == [] then word else Join(words) + "-" + word
  {
    assert (words + [word])[..|words|] == words;
  }

  lemma JoinLongerLast(words: seq<string>, c: char)
    requires words != []
    ensures Join(words[|words| - 1 := words[|words| - 1] + [c]]) == Join(words) + [c]
  {
    var n := |words| - 1;
    var longer := words[n := words[n] + [c]];
    assert longer[..n] == words[..n];
    if n > 0 { assert Join(longer) == Join(words[..n]) + "-" + (words[n] + [c]); }
  }

  function TrimStart(s: string): string {
    if s != [] && s[0] == '-' then TrimStart(s[1..]) else s
  }

  function TrimEnd(s: string): string {
    if s != [] && s[|s| - 1] == '-' then TrimEnd(s[..|s| - 1]) else s
  }

  function Trim(s: string): string {
    TrimEnd(TrimStart(s))
  }

  method RemoveMarks(u: Unicode, normalised: string) returns (builder: string)
    ensures builder == WithoutMarks(u, normalised)
  {
    builder := [];
    for i := 0 to |normalised|
      invariant builder == WithoutMarks(u, normalised[..i])
    {
      assert normalised[..i + 1][..i] == normalised[..i];
      if !u.isMark(normalised[i]) {
        builder := builder + [normalised[i]];
      }
    }
    assert normalised[..|normalised|] == normalised;
  }

  /** One more character: it lengthens the last word, starts a new one, or adds nothing. */
  lemma OneMoreCharacter(u: Unicode, text: string, i: nat)
    requires i < |text|
    ensures var before, after, c := Words(u, text[..i]), Words(u, text[..i + 1]), u.lower(text[i]);
            if !u.isLetterOrDigit(text[i]) then after == before
            else after != [] && Join(after) == if i > 0 && u.isLetterOrDigit(text[i - 1]) then Join(before) + [c]
                                               else if before == [] then [c] else Join(before) + "-" + [c]
  {
    assert text[..i + 1][..i] == text[..i];
    var words := Words(u, text[..i]);
    if u.isLetterOrDigit(text[i]) {
      if i > 0 && u.isLetterOrDigit(text[i - 1]) {
        assert text[..i][i - 1] == text[i - 1];
        JoinLongerLast(words, u.lower(text[i]));
      } else {
        JoinOneMore(words, [u.lower(text[i])]);
      }
    }
  }

  lemma LetterMakesWord(u: Unicode, text: string, i: nat)
    requires i < |text| && u.isLetterOrDigit(text[i])
    ensures Words(u, text[..i + 1]) != []
  {
  }

  lemma EmptyHasNoWords(u: Unicode, text: string)
    requires text == []
    ensures Words(u, text) == [] && Join(Words(u, text)) == ""
  {
  }

  /** What the loop has written: the words so far, and a hyphen when one is pending. */
  method Hyphenated(u: Unicode, text: string) returns (slug: string, lastWasSeparator: bool)
    ensures slug == Join(Words(u, text)) + if lastWasSeparator then "-" else ""
    ensures lastWasSeparator ==> Words(u, text) != []
  {
    hide Words, Join;
    slug, lastWasSeparator := [], false;
    EmptyHasNoWords(u, text[..0]);
    for i := 0 to |text|
      invariant slug == Join(Words(u, text[..i])) + if lastWasSeparator then "-" else ""
      invariant lastWasSeparator <==> i > 0 && !u.isLetterOrDigit(text[i - 1]) && Words(u, text[..i]) != []
      invariant slug == [] <==> Words(u, text[..i]) == []
    {
      var c := text[i];
      OneMoreCharacter(u, text, i);
      if i > 0 && u.isLetterOrDigit(text[i - 1]) { LetterMakesWord(u, text, i - 1); }
      if u.isLetterOrDigit(c) {
        slug := slug + [u.lower(c)];
        lastWasSeparator := false;
      } else if !lastWasSeparator && |slug| > 0 {
        slug := slug + "-";
        lastWasSeparator := true;
      }
    }
    assert text[..|text|] == text;
  }

  /** None stands for the exception: no letter or digit is left. */
  method Subject(u: Unicode, description: string) returns (r: Option<string>)
    requires HyphenIsSeparator(u)
    ensures r == SlugOf(u, description)
  {
    var builder := RemoveMarks(u, u.decompose(description));
    var deaccented := u.compose(builder);
    var slug, pending := Hyphenated(u, deaccented);
    ghost var words := Words(u, deaccented);
    WordsHaveNoHyphen(u, deaccented);
    NoWordsExactlyWhenNoLetters(u, deaccented);
    TrimOfJoined(words, pending);
    var result := Trim(slug);
    r := if |result| == 0 then None else Some(result);
  }

  function SlugOf(u: Unicode, description: string): Option<string> {
    var text := Deaccented(u, description);
    if exists c :: c in text && u.isLetterOrDigit(c) then Some(Join(Words(u, text))) else None
  }

  /** TrySubject: a missing or blank description has no slug. */
  function SubjectOrNone(u: Unicode, description: Option<string>): Option<string> {
    if description == None || Blank(description.value) then None else SlugOf(u, description.value)
  }

  lemma {:induction false} NoWordsExactlyWhenNoLetters(u: Unicode, text: string)
    ensures Words(u, text) == [] <==> forall c | c in text :: !u.isLetterOrDigit(c)
  {
    if text != [] {
      var n := |text| - 1;
      NoWordsExactlyWhenNoLetters(u, text[..n]);
      assert forall c :: c in text <==> c in text[..n] || c == text[n];
    }
  }

  ghost predicate HyphenFree(words: seq<string>) {
    forall i | 0 <= i < |words| :: words[i] != [] && '-' !in words[i]
  }

  lemma {:induction false} WordsHaveNoHyphen(u: Unicode, text: string)
    requires HyphenIsSeparator(u)
    ensures HyphenFree(Words(u, text))
  {
    if text != [] { WordsHaveNoHyphen(u, text[..|text| - 1]); }
  }

  /** A proper slug: not empty, no hyphen at either end, no two in a row. */
  ghost predicate SlugShaped(s: string) {
    s != [] && s[0] != '-' && s[|s| - 1] != '-' && NoDouble(s)
  }

  ghost predicate NoDouble(s: string) {
    forall i | 0 <= i < |s| - 1 :: !(s[i] == '-' && s[i + 1] == '-')
  }

  lemma {:induction false} JoinedIsSlugShaped(words: seq<string>)
    requires words != [] && HyphenFree(words)
    ensures SlugShaped(Join(words))
  {
    if |words| == 1 {
      WordIsSlugShaped(words[0]);
    } else {
      JoinedIsSlugShaped(words[..|words| - 1]);
      WordIsSlugShaped(words[|words| - 1]);
      GluedIsSlugShaped(Join(words[..|words| - 1]), words[|words| - 1]);
    }
  }

  lemma WordIsSlugShaped(word: string)
    requires word != [] && '-' !in word
    ensures SlugShaped(word)
  {
    assert forall i | 0 <= i < |word| :: word[i] in word;
  }

  lemma GluedIsSlugShaped(a: string, b: string)
    requires SlugShaped(a) && SlugShaped(b)
    ensures SlugShaped(a + "-" + b)
  {
    var s := a + "-" + b;
    forall i | 0 <= i < |s| - 1 ensures !(s[i] == '-' && s[i + 1] == '-') {
      if i > |a| { assert s[i] == b[i - |a| - 1] && s[i + 1] == b[i - |a|]; }
    }
  }

  lemma TrimOfJoined(words: seq<string>, pending: bool)
    requires HyphenFree(words) && (pending ==> words != [])
    ensures Trim(Join(words) + if pending then "-" else "") == Join(words)
    ensures words != [] ==> Join(words) != []
  {
    if words != [] {
      JoinedIsSlugShaped(words);
      var s := Join(words);
      assert s + "" == s && (s + "-")[..|s|] == s;
      assert TrimStart(s + "-") == s + "-" && TrimEnd(s + "-") == TrimEnd(s);
    }
  }

  /** Every slug is properly shaped, and there is one exactly when some letter or digit survives. */
  lemma SlugIsShaped(u: Unicode, description: string)
    requires HyphenIsSeparator(u)
    ensures SlugOf(u, description).Some? <==> exists c :: c in Deaccented(u, description) && u.isLetterOrDigit(c)
    ensures SlugOf(u, description).Some? ==> SlugShaped(SlugOf(u, description).value)
  {
    var text := Deaccented(u, description);
    NoWordsExactlyWhenNoLetters(u, text);
    WordsHaveNoHyphen(u, text);
    if Words(u, text) != [] { JoinedIsSlugShaped(Words(u, text)); }
  }

  function WithoutHyphens(s: string): string {
    if s == [] then []
    else
      var init, c := WithoutHyphens(s[..|s| - 1]), s[|s| - 1];
      if c == '-' then init else init + [c]
  }

  /** The letters and digits of a text, lower-cased, in order. */
  function Letters(u: Unicode, text: string): string {
    if text == [] then []
    else
      var init, c := Letters(u, text[..|text| - 1]), text[|text| - 1];
      if u.isLetterOrDigit(c) then init + [u.lower(c)] else init
  }

  lemma WithoutHyphensAppends(s: string, c: char)
    ensures WithoutHyphens(s + [c]) == if c == '-' then WithoutHyphens(s) else WithoutHyphens(s) + [c]
  {
    assert (s + [c])[..|s|] == s;
  }

  lemma {:induction false} LettersAreKept(u: Unicode, text: string)
    requires HyphenIsSeparator(u)
    ensures WithoutHyphens(Join(Words(u, text))) == Letters(u, text)
  {
    hide Join, Words, WithoutHyphens;
    if text == [] {
      EmptyHasNoWords(u, text);
      NothingWithoutHyphens();
    } else {
      var n := |text| - 1;
      var before, c := Join(Words(u, text[..n])), u.lower(text[n]);
      LettersAreKept(u, text[..n]);
      OneMoreCharacter(u, text, n);
      assert text[..n + 1] == text;
      EmptyHasNoWords(u, []);
      NothingWithoutHyphens();
      WithoutHyphensAppends([], c);
      WithoutHyphensAppends(before, c);
      WithoutHyphensAppends(before, '-');
      WithoutHyphensAppends(before + "-", c);
      assert [] + [c] == [c];
    }
  }

  lemma NothingWithoutHyphens()
    ensures WithoutHyphens([]) == [] && Join([]) == []
  {
  }

  /**
   A slug is the letters and digits of the description, freed of its marks, in order, with hyphens between them
   only.
   */
  lemma SlugKeepsLetters(u: Unicode, description: string)
    requires HyphenIsSeparator(u) && SlugOf(u, description).Some?
    ensures WithoutHyphens(SlugOf(u, description).value)
            == Letters(u, u.compose(WithoutMarks(u, u.decompose(description))))
  {
    LettersAreKept(u, Deaccented(u, description));
  }

  // ----- marks and words

  /**
   A description that is missing or blank gives no subject; another gives its slug, or none without a letter or
   digit.
   */
  lemma SubjectOfDescription(u: Unicode, description: Option<string>)
    ensures (description == None || forall i | 0 <= i < |description.value| :: IsSpace(description.value[i])) ==>
              SubjectOrNone(u, description) == None
    ensures description.Some? && (exists i :: 0 <= i < |description.value| && !IsSpace(description.value[i])) ==>
              SubjectOrNone(u, description) == SlugOf(u, description.value)
  {
  }

  /** Two texts that differ in combining marks only. */
  ghost predicate SameButForMarks(u: Unicode, a: string, b: string)
    decreases |a| + |b|
  {
    if a != [] && u.isMark(a[|a| - 1]) then SameButForMarks(u, a[..|a| - 1], b)
    else if b != [] && u.isMark(b[|b| - 1]) then SameButForMarks(u, a, b[..|b| - 1])
    else if a == [] || b == [] then a == b
    else a[|a| - 1] == b[|b| - 1] && SameButForMarks(u, a[..|a| - 1], b[..|b| - 1])
  }

  lemma {:induction false} MarksDropOut(u: Unicode, a: string, b: string)
    ensures WithoutMarks(u, a) == WithoutMarks(u, b) <==> SameButForMarks(u, a, b)
    decreases |a| + |b|
  {
    if a != [] && u.isMark(a[|a| - 1]) {
      MarksDropOut(u, a[..|a| - 1], b);
    } else if b != [] && u.isMark(b[|b| - 1]) {
      MarksDropOut(u, a, b[..|b| - 1]);
    } else if a != [] && b != [] {
      MarksDropOut(u, a[..|a| - 1], b[..|b| - 1]);
      var x, y := WithoutMarks(u, a), WithoutMarks(u, b);
      assert x[..|x| - 1] == WithoutMarks(u, a[..|a| - 1]) && y[..|y| - 1] == WithoutMarks(u, b[..|b| - 1]);
    }
  }

  lemma {:induction false} UnmarkedIsKept(u: Unicode, text: string)
    requires forall c | c in text :: !u.isMark(c)
    ensures WithoutMarks(u, text) == text
  {
    if text != [] { UnmarkedIsKept(u, text[..|text| - 1]); }
  }

  /**
   Accents make no subject: descriptions whose decomposed forms differ in marks only share their slug, or have none.
   */
  lemma AccentsMakeNoSubject(u: Unicode, a: string, b: string)
    requires SameButForMarks(u, u.decompose(a), u.decompose(b))
    ensures SlugOf(u, a) == SlugOf(u, b)
  {
    MarksDropOut(u, u.decompose(a), u.decompose(b));
  }

  /** A separator ends a word and starts the next. */
  lemma {:induction false} WordsSplitAtSeparators(u: Unicode, a: string, c: char, b: string)
    requires !u.isLetterOrDigit(c)
    ensures Words(u, a + [c] + b) == Words(u, a) + Words(u, b)
  {
    var text := a + [c] + b;
    var n := |text| - 1;
    if b == [] {
      assert text == a + [c] && text[..n] == a;
    } else {
      var m := |b| - 1;
      WordsSplitAtSeparators(u, a, c, b[..m]);
      assert text[..n] == a + [c] + b[..m] && text[n] == b[m];
      assert text[n - 1] == if m > 0 then b[m - 1] else c;
    }
  }

  lemma {:induction false} OneWord(u: Unicode, text: string)
    requires text != [] && forall c | c in text :: u.isLetterOrDigit(c)
    ensures Words(u, text) == [Letters(u, text)]
  {
    var n := |text| - 1;
    if n > 0 {
      OneWord(u, text[..n]);
      assert text[n - 1] in text && text[n] in text;
    } else {
      assert text[..0] == [] && text[0] in text;
      assert Words(u, text) == [[u.lower(text[0])]] && Letters(u, text) == [u.lower(text[0])];
    }
  }

  lemma SeparatorsMakeNoWords(u: Unicode, text: string)
    requires forall c | c in text :: !u.isLetterOrDigit(c)
    ensures Words(u, text) == []
  {
    NoWordsExactlyWhenNoLetters(u, text);
  }
}
