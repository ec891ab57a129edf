/**
 Graph rows arrive in an annotated form of JSON: any value may be followed by "::" and a type name. The
 reader strips those annotations in one pass, without parsing, and must leave string contents alone.
 */
module AgtypeReader {
  datatype Mode = Outside | InString | AfterBackslash

  predicate IsName(isLetter: char -> bool, c: char) {
    isLetter(c) || c == '_'
  }

  function NameEnd(isLetter: char -> bool, text: string, start: nat): (end: nat)
    requires start <= |text|
    ensures start <= end <= |text|
    decreases |text| - start
  {
    if start < |text| && IsName(isLetter, text[start]) then NameEnd(isLetter, text, start + 1) else start
  }

  method SkipAnnotation(isLetter: char -> bool, text: string, start: nat) returns (i: nat)
    requires start <= |text|
    ensures start <= i <= |text| && i == NameEnd(isLetter, text, start)
    ensures forall k | start <= k < i :: IsName(isLetter, text[k])
    ensures i < |text| ==> !IsName(isLetter, text[i])
    ensures forall k | start <= k < i :: isLetter(text[k]) || text[k] == '_'
    ensures i < |text| ==> !isLetter(text[i]) && text[i] != '_'
  {
    i := start;
    while i < |text| && IsName(isLetter, text[i])
      invariant start <= i <= |text| && NameEnd(isLetter, text, i) == NameEnd(isLetter, text, start)
      invariant forall k | start <= k < i :: IsName(isLetter, text[k])
    {
      i := i + 1;
    }
  }

  predicate AtMarker(s: string) {
    |s| >= 2 && s[0] == ':' && s[1] == ':'
  }

  function NextInString(c: char): Mode {
    if c == '\\' then AfterBackslash else if c == '"' then Outside else InString
  }

  /** What is left of s when reading starts in the given mode. */
  function Strip(isLetter: char -> bool, s: string, mode: Mode): string
    decreases |s|
  {
    if s == [] then []
    else match mode
      case AfterBackslash => [s[0]] + Strip(isLetter, s[1..], InString)
      case InString => [s[0]] + Strip(isLetter, s[1..], NextInString(s[0]))
      case Outside =>
        if s[0] == '"' then [s[0]] + Strip(isLetter, s[1..], InString)
        else if AtMarker(s) then Strip(isLetter, s[NameEnd(isLetter, s, 2)..], Outside)
        else [s[0]] + Strip(isLetter, s[1..], Outside)
  }

  lemma {:induction false} NameEndOfSuffix(isLetter: char -> bool, s: string, k: nat, start: nat)
    requires k + start <= |s|
    ensures NameEnd(isLetter, s[k..], start) + k == NameEnd(isLetter, s, k + start)
    decreases |s| - start
  {
    if k + start < |s| && IsName(isLetter, s[k + start]) {
      NameEndOfSuffix(isLetter, s, k, start + 1);
    }
  }

  /** The mode after a character that is kept. */
  function Following(c: char, mode: Mode): Mode {
    match mode
    case AfterBackslash => InString
    case InString => NextInString(c)
    case Outside => if c == '"' then InString else Outside
  }

  lemma StripFrom(isLetter: char -> bool, text: string, i: nat, mode: Mode)
    requires i < |text|
    ensures Strip(isLetter, text[i..], mode)
         == if mode == Outside && AtMarker(text[i..])
           then Strip(isLetter, text[NameEnd(isLetter, text, i + 2)..], Outside)
            else [text[i]] + Strip(isLetter, text[i + 1..], Following(text[i], mode))
  {
    var rest := text[i..];
    assert rest[1..] == text[i + 1..];
    if AtMarker(rest) {
      NameEndOfSuffix(isLetter, text, i, 2);
      assert rest[NameEnd(isLetter, rest, 2)..] == text[NameEnd(isLetter, text, i + 2)..];
    }
  }

  function ModeOf(inString: bool, escaped: bool): Mode {
    if escaped then AfterBackslash else if inString then InString else Outside
  }

  lemma Regroup(a: string, b: string, c: string)
    ensures (a + b) + c == a + (b + c)
  {
  }

  method ToJson(isLetter: char -> bool, agtypeArray: string) returns (json: string)
    ensures json == Strip(isLetter, agtypeArray, Outside)
  {
    hide Strip, NameEnd;
    json := [];
    var inString, escaped := false, false;
    var i := 0;
    assert agtypeArray[0..] == agtypeArray;
    while i < |agtypeArray|
      invariant i <= |agtypeArray| && (escaped ==> inString)
      invariant Strip(isLetter, agtypeArray, Outside) == json
                + Strip(isLetter, agtypeArray[i..], ModeOf(inString, escaped))
    {
      var c := agtypeArray[i];
      ghost var before, mode := json, ModeOf(inString, escaped);
      StripFrom(isLetter, agtypeArray, i, mode);
      Regroup(before, [c], Strip(isLetter, agtypeArray[i + 1..], Following(c, mode)));
      if escaped {
        json := json + [c];
        escaped := false;
      } else if inString {
        json := json + [c];
        escaped := c == '\\';
        inString := c != '"';
      } else if c == '"' {
        json := json + [c];
        inString := true;
      } else if c == ':' && i + 1 < |agtypeArray| && agtypeArray[i + 1] == ':' {
        i := SkipAnnotation(isLetter, agtypeArray, i + 2);
        continue;
      } else {
        json := json + [c];
      }
      i := i + 1;
    }
    EmptyIsStripped(isLetter, agtypeArray[i..], ModeOf(inString, escaped));
  }

  lemma EmptyIsStripped(isLetter: char -> bool, s: string, mode: Mode)
    requires s == []
    ensures Strip(isLetter, s, mode) == []
  {
  }

  // ----- on any input at all

  /** An annotation marker stands outside every string literal. */
  predicate Marked(s: string, mode: Mode) {
    s != [] && ((mode == Outside && AtMarker(s)) || Marked(s[1..], Following(s[0], mode)))
  }

  lemma {:induction false} StripOnlyRemoves(isLetter: char -> bool, s: string, mode: Mode)
    ensures |Strip(isLetter, s, mode)| <= |s|
    decreases |s|
  {
    if s == [] {
    } else if mode == Outside && AtMarker(s) {
      StripOnlyRemoves(isLetter, s[NameEnd(isLetter, s, 2)..], Outside);
    } else {
      StripOnlyRemoves(isLetter, s[1..], Following(s[0], mode));
    }
  }

  /** Stripping leaves a text alone exactly when no marker stands outside its strings. */
  lemma {:induction false} UnchangedExactlyWhenUnmarked(isLetter: char -> bool, s: string, mode: Mode)
    ensures Strip(isLetter, s, mode) == s <==> !Marked(s, mode)
    decreases |s|
  {
    if s == [] {
    } else if mode == Outside && AtMarker(s) {
      StripOnlyRemoves(isLetter, s[NameEnd(isLetter, s, 2)..], Outside);
    } else {
      UnchangedExactlyWhenUnmarked(isLetter, s[1..], Following(s[0], mode));
      assert s == [s[0]] + s[1..];
    }
  }

  /** No stripped text has a marker left: two colons the stripping brought together would need a marker between them. */
  lemma {:induction false} StrippedIsUnmarked(isLetter: char -> bool, s: string, mode: Mode)
    ensures !Marked(Strip(isLetter, s, mode), mode)
    decreases |s|
  {
    if s == [] {
    } else if mode == Outside && AtMarker(s) {
      StrippedIsUnmarked(isLetter, s[NameEnd(isLetter, s, 2)..], Outside);
    } else {
      StrippedIsUnmarked(isLetter, s[1..], Following(s[0], mode));
      var t := Strip(isLetter, s, mode);
      assert t[1..] == Strip(isLetter, s[1..], Following(s[0], mode));
    }
  }

  /** On every input whatsoever, stripping twice is stripping once. */
  lemma StripIsIdempotent(isLetter: char -> bool, s: string)
    ensures Strip(isLetter, Strip(isLetter, s, Outside), Outside) == Strip(isLetter, s, Outside)
  {
    StrippedIsUnmarked(isLetter, s, Outside);
    UnchangedExactlyWhenUnmarked(isLetter, Strip(isLetter, s, Outside), Outside);
  }

  // ----- on rendered values

  /** A character of a string literal, or a backslash and the character it escapes. */
  datatype Piece = Plain(c: char) | Escape(c: char)

  datatype Field = Field(key: seq<Piece>, value: Value)

  datatype Value =
    | Atom(text: string)
    | Str(pieces: seq<Piece>)
    | Arr(items: seq<Value>)
    | Obj(fields: seq<Field>)
    | Typed(value: Value, kind: string)

  predicate IsLiteral(pieces: seq<Piece>) {
    forall p | p in pieces :: p.Plain? ==> p.c != '"' && p.c != '\\'
  }

  predicate IsText(text: string) {
    forall k | 0 <= k < |text| :: text[k] != '"' && text[k] != ':'
  }

  /** Atoms are numbers and keywords; a type is named by letters and underscores. */
  predicate WellFormed(isLetter: char -> bool, v: Value) {
    match v
    case Atom(text) => IsText(text)
    case Str(pieces) => IsLiteral(pieces)
    case Arr(items) => forall i | i in items :: WellFormed(isLetter, i)
    case Obj(fields) => forall f | f in fields :: IsLiteral(f.key) && WellFormed(isLetter, f.value)
    case Typed(value, kind) => WellFormed(isLetter, value) && forall c | c in kind :: IsName(isLetter, c)
  }

  function Pieces(pieces: seq<Piece>): string {
    if pieces == [] then ""
    else (match pieces[0] case Plain(c) => [c] case Escape(c) => ['\\', c]) + Pieces(pieces[1..])
  }

  function Quoted(pieces: seq<Piece>): string {
    "\"" + Pieces(pieces) + "\""
  }

  /** The text of a value, with its type annotations or without. */
  function Render(v: Value, annotated: bool): string
    decreases v, 0
  {
    match v
    case Atom(text) => text
    case Str(pieces) => Quoted(pieces)
    case Arr(items) => "[" + Items(items, annotated) + "]"
    case Obj(fields) => "{" + Fields(fields, annotated) + "}"
    case Typed(value, kind) => Render(value, annotated) + if annotated then "::" + kind else ""
  }

  function Separator(more: nat): string {
    if more > 1 then ", " else ""
  }

  function Items(items: seq<Value>, annotated: bool): string
    decreases items, 0
  {
    if items == [] then ""
    else Render(items[0], annotated) + Separator(|items|) + Items(items[1..], annotated)
  }

  function Fields(fields: seq<Field>, annotated: bool): string
    decreases fields, 0
  {
    if fields == [] then ""
    else Quoted(fields[0].key) + ": "
         + (Render(fields[0].value, annotated) + Separator(|fields|) + Fields(fields[1..], annotated))
  }

  /** The two renderings spelled out: brackets, braces, separators, quoted keys, and the annotation or nothing. */
  lemma RenderSpelled(v: Value, w: Value, items: seq<Value>, key: seq<Piece>, kind: string, annotated: bool)
    ensures Render(Arr([]), annotated) == "[]" && Render(Obj([]), annotated) == "{}"
    ensures Render(Arr([v]), annotated) == "[" + Render(v, annotated) + "]"
    ensures Items([v, w] + items, annotated) == Render(v, annotated) + ", " + Items([w] + items, annotated)
    ensures Render(Obj([Field(key, v)]), annotated) == "{"
            + ("\"" + Pieces(key) + "\"" + ": " + Render(v, annotated)) + "}"
    ensures Fields([Field(key, v), Field(key, w)], annotated)
            == "\"" + Pieces(key) + "\"" + ": " + (Render(v, annotated) + ", " + Fields([Field(key, w)], annotated))
    ensures Render(Typed(v, kind), true) == Render(v, true) + ("::" + kind)
            && Render(Typed(v, kind), false) == Render(v, false)
    ensures Render(Str(key), annotated) == "\"" + Pieces(key) + "\""
  {
    assert [v][1..] == [] && Items([], annotated) == "" && Render(v, annotated) + "" == Render(v, annotated);
    assert ([v, w] + items)[1..] == [w] + items;
    var one, two := [Field(key, v)], [Field(key, v), Field(key, w)];
    assert one[1..] == [] && Fields([], annotated) == "" && two[1..] == [Field(key, w)];
    assert Render(v, annotated) + Separator(1) + "" == Render(v, annotated);
    assert Render(v, false) + "" == Render(v, false);
  }

  lemma {:induction false} PiecesSpelled(pieces: seq<Piece>, c: char)
    ensures Pieces([]) == "" && Pieces([Plain(c)] + pieces) == [c] + Pieces(pieces)
    ensures Pieces([Escape(c)] + pieces) == ['\\', c] + Pieces(pieces)
  {
    assert ([Plain(c)] + pieces)[1..] == pieces && ([Escape(c)] + pieces)[1..] == pieces;
  }

  /** None of the punctuation that can follow a value is a letter. */
  predicate PunctuationIsNoLetter(isLetter: char -> bool) {
    !isLetter(',') && !isLetter(']') && !isLetter('}') && !isLetter(':')
  }

  predicate EndsName(isLetter: char -> bool, rest: string) {
    rest == [] || !IsName(isLetter, rest[0])
  }

  /** A kept character, whatever follows it. */
  lemma StripKeeps(isLetter: char -> bool, c: char, rest: string, mode: Mode)
    requires mode == Outside && c == ':' ==> rest != [] && rest[0] != ':'
    ensures Strip(isLetter, [c] + rest, mode) == [c] + Strip(isLetter, rest, Following(c, mode))
  {
    var s := [c] + rest;
    assert s[1..] == rest;
  }

  lemma {:induction false} StripText(isLetter: char -> bool, text: string, rest: string)
    requires IsText(text)
    ensures Strip(isLetter, text + rest, Outside) == text + Strip(isLetter, rest, Outside)
  {
    hide Strip;
    if text == [] {
      assert text + rest == rest;
    } else {
      StripText(isLetter, text[1..], rest);
      StripKeeps(isLetter, text[0], text[1..] + rest, Outside);
      assert text == [text[0]] + text[1..];
      Regroup([text[0]], text[1..], rest);
      Regroup([text[0]], text[1..], Strip(isLetter, rest, Outside));
    }
  }

  lemma {:induction false} StripPieces(isLetter: char -> bool, pieces: seq<Piece>, rest: string)
    requires IsLiteral(pieces)
    ensures Strip(isLetter, Pieces(pieces) + ("\"" + rest), InString) == Pieces(pieces)
            + ("\"" + Strip(isLetter, rest, Outside))
  {
    hide Strip;
    var end, stripped := "\"" + rest, "\"" + Strip(isLetter, rest, Outside);
    if pieces == [] {
      StripKeeps(isLetter, '"', rest, InString);
      assert Pieces(pieces) + end == end && Pieces(pieces) + stripped == stripped;
    } else {
      StripPieces(isLetter, pieces[1..], rest);
      var more := Pieces(pieces[1..]);
      match pieces[0] {
        case Plain(c) =>
          StripKeeps(isLetter, c, more + end, InString);
          Regroup([c], more, end);
          Regroup([c], more, stripped);
        case Escape(c) =>
          StripKeeps(isLetter, c, more + end, AfterBackslash);
          StripKeeps(isLetter, '\\', [c] + (more + end), InString);
          assert Pieces(pieces) == ['\\'] + ([c] + more);
          Regroup(['\\'], [c] + more, end);
          Regroup(['\\'], [c] + more, stripped);
          Regroup([c], more, end);
          Regroup([c], more, stripped);
      }
    }
  }

  lemma StripQuoted(isLetter: char -> bool, pieces: seq<Piece>, rest: string)
    requires IsLiteral(pieces)
    ensures Strip(isLetter, Quoted(pieces) + rest, Outside) == Quoted(pieces) + Strip(isLetter, rest, Outside)
  {
    hide Strip, Pieces, IsLiteral;
    var text, stripped := Pieces(pieces), Strip(isLetter, rest, Outside);
    StripPieces(isLetter, pieces, rest);
    StripKeeps(isLetter, '"', text + ("\"" + rest), Outside);
    assert Quoted(pieces) + rest == "\"" + (text + ("\"" + rest));
    assert Quoted(pieces) + stripped == "\"" + (text + ("\"" + stripped));
  }

  lemma {:induction false} NameEndsAfter(isLetter: char -> bool, before: string, kind: string, rest: string, k: nat)
    requires (forall c | c in kind :: IsName(isLetter, c)) && EndsName(isLetter, rest) && k <= |kind|
    ensures NameEnd(isLetter, before + kind + rest, |before| + k) == |before| + |kind|
    decreases |kind| - k
  {
    var s := before + kind + rest;
    if k < |kind| {
      assert s[|before| + k] == kind[k];
      NameEndsAfter(isLetter, before, kind, rest, k + 1);
    } else if rest != [] {
      assert s[|before| + k] == rest[0];
    }
  }

  lemma StripAnnotation(isLetter: char -> bool, kind: string, rest: string)
    requires (forall c | c in kind :: IsName(isLetter, c)) && EndsName(isLetter, rest)
    ensures Strip(isLetter, "::" + kind + rest, Outside) == Strip(isLetter, rest, Outside)
  {
    var s := "::" + kind + rest;
    NameEndsAfter(isLetter, "::", kind, rest, 0);
    assert AtMarker(s) && s[2 + |kind|..] == rest;
  }

  /** Stripping the annotated text of a value gives its plain text, whatever follows it. */
  lemma {:induction false} StripRendered(isLetter: char -> bool, v: Value, rest: string)
    requires PunctuationIsNoLetter(isLetter) && WellFormed(isLetter, v) && EndsName(isLetter, rest)
    ensures Strip(isLetter, Render(v, true) + rest, Outside) == Render(v, false) + Strip(isLetter, rest, Outside)
    decreases v, 0
  {
    hide Strip, Items, Fields, IsLiteral;
    match v {
      case Atom(text) => StripText(isLetter, text, rest);
      case Str(pieces) => StripQuoted(isLetter, pieces, rest);
      case Arr(items) =>
        StripItems(isLetter, items, "]" + rest);
        StripBracketed(isLetter, "[", Items(items, true), Items(items, false), "]", rest);
      case Obj(fields) =>
        StripFields(isLetter, fields, "}" + rest);
        StripBracketed(isLetter, "{", Fields(fields, true), Fields(fields, false), "}", rest);
      case Typed(value, kind) =>
        StripRendered(isLetter, value, "::" + kind + rest);
        StripAnnotation(isLetter, kind, rest);
        assert Render(v, true) + rest == Render(value, true) + ("::" + kind + rest);
        assert Render(v, false) == Render(value, false);
    }
  }

  lemma StripBracketed(isLetter: char -> bool, open: string, annotated: string, plain: string, close: string,
                       rest: string)
    requires IsText(open) && IsText(close)
    requires Strip(isLetter, annotated + (close + rest), Outside) == plain + Strip(isLetter, close + rest, Outside)
    ensures Strip(isLetter, (open + annotated + close) + rest, Outside) == (open + plain + close)
            + Strip(isLetter, rest, Outside)
  {
    hide Strip, IsText;
    var stripped := Strip(isLetter, rest, Outside);
    StripText(isLetter, open, annotated + (close + rest));
    StripText(isLetter, close, rest);
    assert (open + annotated + close) + rest == open + (annotated + (close + rest));
    assert (open + plain + close) + stripped == open + (plain + (close + stripped));
  }

  lemma {:induction false} StripItems(isLetter: char -> bool, items: seq<Value>, rest: string)
    requires PunctuationIsNoLetter(isLetter) && EndsName(isLetter, rest)
    requires forall i | i in items :: WellFormed(isLetter, i)
    ensures Strip(isLetter, Items(items, true) + rest, Outside) == Items(items, false) + Strip(isLetter, rest, Outside)
    decreases items, 0
  {
    hide Strip, Render, WellFormed;
    if items == [] {
      assert Items(items, true) + rest == rest;
    } else {
      StripItems(isLetter, items[1..], rest);
      ElementThenMore(isLetter, items[0], |items|, Items(items[1..], true), Items(items[1..], false), rest);
    }
  }

  /** A value, a separator when more values follow, and those values. */
  lemma ElementThenMore(isLetter: char -> bool, v: Value, count: nat, annotated: string, plain: string, rest: string)
    requires PunctuationIsNoLetter(isLetter) && WellFormed(isLetter, v) && EndsName(isLetter, rest)
    requires count <= 1 ==> annotated == []
    requires Strip(isLetter, annotated + rest, Outside) == plain + Strip(isLetter, rest, Outside)
    ensures Strip(isLetter, (Render(v, true) + Separator(count) + annotated) + rest, Outside)
         == (Render(v, false) + Separator(count) + plain) + Strip(isLetter, rest, Outside)
    decreases v, 1
  {
    hide Strip, Render, WellFormed;
    var tail, stripped := annotated + rest, Strip(isLetter, rest, Outside);
    var next := Separator(count) + tail;
    if count <= 1 { assert next == rest; }
    StripRendered(isLetter, v, next);
    StripText(isLetter, Separator(count), tail);
    assert (Render(v, true) + Separator(count) + annotated) + rest == Render(v, true) + next;
    assert (Render(v, false) + Separator(count) + plain) + stripped == Render(v, false)
           + (Separator(count) + (plain + stripped));
  }

  lemma {:induction false} StripFields(isLetter: char -> bool, fields: seq<Field>, rest: string)
    requires PunctuationIsNoLetter(isLetter) && EndsName(isLetter, rest)
    requires forall f | f in fields :: IsLiteral(f.key) && WellFormed(isLetter, f.value)
    ensures Strip(isLetter, Fields(fields, true) + rest, Outside) == Fields(fields, false)
            + Strip(isLetter, rest, Outside)
    decreases fields, 0
  {
    hide Strip, Render, WellFormed, IsLiteral;
    if fields == [] {
      assert Fields(fields, true) + rest == rest;
    } else {
      var field, annotated, plain := fields[0], Fields(fields[1..], true), Fields(fields[1..], false);
      StripFields(isLetter, fields[1..], rest);
      ElementThenMore(isLetter, field.value, |fields|, annotated, plain, rest);
      var shown, kept := Render(field.value, true) + Separator(|fields|) + annotated,
          Render(field.value, false) + Separator(|fields|) + plain;
      StripKey(isLetter, field.key, shown + rest);
      KeyedText(Quoted(field.key), shown, rest);
      KeyedText(Quoted(field.key), kept, Strip(isLetter, rest, Outside));
    }
  }

  lemma KeyedText(key: string, body: string, rest: string)
    ensures (key + ": " + body) + rest == key + (": " + (body + rest))
  {
  }

  /** The colon after a key is no marker: a space follows it. */
  lemma StripKey(isLetter: char -> bool, key: seq<Piece>, rest: string)
    requires IsLiteral(key)
    ensures Strip(isLetter, Quoted(key) + (": " + rest), Outside) == Quoted(key)
            + (": " + Strip(isLetter, rest, Outside))
  {
    hide Strip, Quoted, IsLiteral;
    StripQuoted(isLetter, key, ": " + rest);
    StripText(isLetter, " ", rest);
    StripKeeps(isLetter, ':', " " + rest, Outside);
    assert ": " + rest == ":" + (" " + rest);
    assert ": " + Strip(isLetter, rest, Outside) == ":" + (" " + Strip(isLetter, rest, Outside));
  }

  /** A whole annotated document strips to its plain document, string contents untouched. */
  lemma StripGivesPlainText(isLetter: char -> bool, v: Value)
    requires PunctuationIsNoLetter(isLetter) && WellFormed(isLetter, v)
    ensures Strip(isLetter, Render(v, true), Outside) == Render(v, false)
  {
    StripRendered(isLetter, v, []);
    assert Render(v, true) + [] == Render(v, true);
    assert Render(v, false) + [] == Render(v, false);
  }
}
