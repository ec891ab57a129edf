/**
 Values reach the graph as text inside a Cypher query, and the query itself inside a dollar-quoted SQL
 constant. Both wrappings must end where their author meant them to, whatever the text contains.
 */
module CypherLiterals {
  import opened Common

  // ----- hexadecimal digits

  function HexDigit(n: nat): char
    requires n < 16
  {
    "0123456789abcdef"[n]
  }

  function HexValue(c: char): Option<nat> {
    if '0' <= c <= '9' then Some(c as nat - '0' as nat)
    else if 'a' <= c <= 'f' then Some(c as nat - 'a' as nat + 10)
    else if 'A' <= c <= 'F' then Some(c as nat - 'A' as nat + 10)
    else None
  }

  function Power16(width: nat): (p: nat)
    ensures p > 0
  {
    if width == 0 then 1 else 16 * Power16(width - 1)
  }

  /** n in lower-case hexadecimal, padded with zeros to the width. */
  function Hex(n: nat, width: nat): (h: string)
    requires n < Power16(width)
    ensures |h| == width
  {
    if width == 0 then "" else Hex(n / 16, width - 1) + [HexDigit(n % 16)]
  }

  function ParseHex(h: string): Option<nat> {
    if h == [] then Some(0)
    else
      var high, low := ParseHex(h[..|h| - 1]), HexValue(h[|h| - 1]);
      if high.Some? && low.Some? then Some(16 * high.value + low.value) else None
  }

  lemma DigitIsReadBack(n: nat)
    requires n < 16
    ensures HexValue(HexDigit(n)) == Some(n) && HexDigit(n) >= '0'
  {
  }

  lemma {:induction false} HexIsReadBack(n: nat, width: nat)
    requires n < Power16(width)
    ensures ParseHex(Hex(n, width)) == Some(n)
  {
    hide HexDigit, HexValue;
    if width > 0 {
      var high, low := n / 16, n % 16;
      HexIsReadBack(high, width - 1);
      DigitIsReadBack(low);
      assert Hex(n, width)[..width - 1] == Hex(high, width - 1);
    }
  }

  // ----- quoted literals

  function Escaped(c: char): (e: string)
    ensures e != []
  {
    if c == '\\' then "\\\\"
    else if c == '\'' then "\\'"
    else if c == '\n' then "\\n"
    else if c == '\r' then "\\r"
    else if c == '\t' then "\\t"
    else if c < ' ' then "\\u" + Hex(c as nat, 4)
    else [c]
  }

  function EscapedAll(value: string): string {
    if value == [] then "" else Escaped(value[0]) + EscapedAll(value[1..])
  }

  lemma {:induction false} EscapedAppends(value: string, c: char)
    ensures EscapedAll(value + [c]) == EscapedAll(value) + Escaped(c)
  {
    hide Escaped;
    if value == [] {
      assert EscapedAll([c]) == Escaped(c) + EscapedAll([c][1..]);
    } else {
      EscapedAppends(value[1..], c);
      assert (value + [c])[1..] == value[1..] + [c];
    }
  }

  method AppendEscaped(builder: string, c: char) returns (r: string)
    ensures r == builder + Escaped(c)
  {
    match c {
      case '\\' => r := builder + "\\\\";
      case '\'' => r := builder + "\\'";
      case '\n' => r := builder + "\\n";
      case '\r' => r := builder + "\\r";
      case '\t' => r := builder + "\\t";
      case _ =>
        if c < ' ' {
          r := builder + ("\\u" + Hex(c as nat, 4));
        } else {
          r := builder + [c];
        }
    }
  }

  method Quote(value: string) returns (r: string)
    ensures r == "'" + EscapedAll(value) + "'"
  {
    hide *;
    r := "'";
    EmptyEscapes(value[..0]);
    for i := 0 to |value|
      invariant r == "'" + EscapedAll(value[..i])
    {
      EscapedAppends(value[..i], value[i]);
      assert value[..i + 1] == value[..i] + [value[i]];
      r := AppendEscaped(r, value[i]);
    }
    assert value[..|value|] == value;
    r := r + "'";
  }

  lemma EmptyEscapes(value: string)
    requires value == []
    ensures EscapedAll(value) == []
  {
  }

  /** One step of reading a Cypher string literal: the character meant and what is left, past its escape. */
  function ReadOne(s: string): (r: Option<(char, string)>)
    requires s != []
    ensures r.Some? ==> |r.value.1| < |s|
  {
    if s[0] != '\\' then Some((s[0], s[1..]))
    else if |s| < 2 then None
    else match s[1]
      case '\\' => Some(('\\', s[2..]))
      case '\'' => Some(('\'', s[2..]))
      case '"' => Some(('"', s[2..]))
      case 'b' => Some((8 as char, s[2..]))
      case 'f' => Some((12 as char, s[2..]))
      case 'n' => Some(('\n', s[2..]))
      case 'r' => Some(('\r', s[2..]))
      case 't' => Some(('\t', s[2..]))
      case 'u' =>
        if |s| < 6 then None
        else
          var code := ParseHex(s[2..6]);
          if code.Some? && (code.value < 0xD800 || 0xE000 <= code.value < 0x10000)
            then Some((code.value as char, s[6..])) else None
      case _ => None
  }

  /** Reading on, inside a literal, up to its closing quote: the value and the text after the quote. */
  function ReadLiteral(s: string): Option<(string, string)>
    decreases |s|
  {
    if s == [] then None
    else if s[0] == '\'' then Some(("", s[1..]))
    else
      var one := ReadOne(s);
      if one == None then None
      else
        var more := ReadLiteral(one.value.1);
        if more == None then None else Some(([one.value.0] + more.value.0, more.value.1))
  }

  function Decode(s: string): Option<(string, string)> {
    if s == [] || s[0] != '\'' then None else ReadLiteral(s[1..])
  }

  lemma CodeIsReadBack(c: char, rest: string)
    requires c < ' '
    ensures ReadOne("\\u" + Hex(c as nat, 4) + rest) == Some((c, rest))
  {
    HexIsReadBack(c as nat, 4);
    var s := "\\u" + Hex(c as nat, 4) + rest;
    assert s[2..6] == Hex(c as nat, 4) && s[6..] == rest;
  }

  lemma EscapeIsReadBack(c: char, rest: string)
    ensures Escaped(c)[0] != '\'' && ReadOne(Escaped(c) + rest) == Some((c, rest))
  {
    hide Hex, ParseHex;
    if c == '\\' || c == '\'' || c == '\n' || c == '\r' || c == '\t' {
      assert (Escaped(c) + rest)[2..] == rest;
    } else if c < ' ' {
      CodeIsReadBack(c, rest);
    } else {
      assert (Escaped(c) + rest)[1..] == rest;
    }
  }

  lemma {:induction false} EscapedTextIsReadBack(value: string, rest: string)
    ensures ReadLiteral(EscapedAll(value) + ("'" + rest)) == Some((value, rest))
  {
    hide ReadOne, Escaped;
    var end := "'" + rest;
    if value == [] {
      assert EscapedAll(value) + end == end && end[1..] == rest;
    } else {
      var more := EscapedAll(value[1..]) + end;
      EscapedTextIsReadBack(value[1..], rest);
      EscapeIsReadBack(value[0], more);
      assert EscapedAll(value) + end == Escaped(value[0]) + more;
      assert value == [value[0]] + value[1..];
    }
  }

  /** A quoted literal gives back the value it was made from, whatever text follows it in the query. */
  lemma QuotedIsSelfDelimiting(value: string, rest: string)
    ensures Decode(("'" + EscapedAll(value) + "'") + rest) == Some((value, rest))
  {
    EscapedTextIsReadBack(value, rest);
    var s := ("'" + EscapedAll(value) + "'") + rest;
    assert s[1..] == EscapedAll(value) + ("'" + rest);
  }

  lemma EscapeHasNoControl(c: char, k: nat)
    requires k < |Escaped(c)|
    ensures Escaped(c)[k] >= ' '
  {
    if c < ' ' && c !in "\n\r\t" {
      HexIsPrintable(c as nat, 4);
      assert k >= 2 ==> Escaped(c)[k] == Hex(c as nat, 4)[k - 2];
    }
  }

  /** No literal carries a raw control character. */
  lemma {:induction false} NoRawControls(value: string, k: nat)
    requires k < |EscapedAll(value)|
    ensures EscapedAll(value)[k] >= ' '
  {
    hide Escaped;
    var first := Escaped(value[0]);
    if k < |first| {
      EscapeHasNoControl(value[0], k);
    } else {
      NoRawControls(value[1..], k - |first|);
    }
  }

  lemma {:induction false} HexIsPrintable(n: nat, width: nat)
    requires n < Power16(width)
    ensures forall k | 0 <= k < width :: Hex(n, width)[k] >= '0'
  {
    hide HexDigit;
    if width > 0 {
      HexIsPrintable(n / 16, width - 1);
      DigitIsReadBack(n % 16);
    }
  }

  // ----- dollar quoting

  /** How many different random tags there are: Random.Next is below the largest 32-bit signed integer. */
  const DRAWS: nat := 0x7FFF_FFFF

  predicate OccursAt(text: string, part: string, at: nat) {
    at + |part| <= |text| && text[at..at + |part|] == part
  }

  predicate Contains(text: string, part: string) {
    exists at | 0 <= at <= |text| :: OccursAt(text, part, at)
  }

  const FIRST_TAG := "$q$"

  function Tag(draw: nat): string
    requires draw < DRAWS
  {
    "$q" + Hex(draw, 8) + "$"
  }

  predicate IsTag(tag: string) {
    tag == FIRST_TAG || exists d | 0 <= d < DRAWS :: tag == Tag(d)
  }

  function Wrapped(tag: string, cypher: string): string {
    tag + "\n" + cypher + "\n" + tag
  }

  /** The random draws are given; None when every one of them gives a tag the body contains. */
  method DollarWrap(cypher: string, draws: seq<nat>) returns (r: Option<string>)
    requires forall j | 0 <= j < |draws| :: draws[j] < DRAWS
    ensures r.Some? ==> exists tag :: IsTag(tag) && !Contains(cypher, tag) && r.value == Wrapped(tag, cypher)
    ensures !Contains(cypher, "$q$") ==> r == Some("$q$" + "\n" + cypher + "\n" + "$q$")
    ensures r == None <==> Contains(cypher, FIRST_TAG) && forall j | 0 <= j < |draws| :: Contains(cypher, Tag(draws[j]))
  {
    var tag := FIRST_TAG;
    var i := 0;
    while Contains(cypher, tag)
      invariant i <= |draws| && tag == if i == 0 then FIRST_TAG else Tag(draws[i - 1])
      invariant i > 0 ==> Contains(cypher, FIRST_TAG)
      invariant forall j | 0 <= j < i - 1 :: Contains(cypher, Tag(draws[j]))
      decreases |draws| - i
    {
      if i == |draws| {
        return None;
      }
      tag := Tag(draws[i]);
      i := i + 1;
    }
    r := Some(Wrapped(tag, cypher));
  }

  /** Where the first occurrence of part at or after the start begins; |text| + 1 when there is none. */
  function FirstFrom(text: string, part: string, start: nat): nat
    requires start <= |text| + 1
    decreases |text| + 1 - start
  {
    if start > |text| || OccursAt(text, part, start) then start else FirstFrom(text, part, start + 1)
  }

  /**
   A dollar-quoted constant ends at the first repetition of its tag: the body and what follows (section 4.1.2.4 of
   the PostgreSQL manual).
   */
  function ScanDollar(s: string, tag: string): Option<(string, string)> {
    if !(tag <= s) then None
    else
      var text := s[|tag|..];
      var at := FirstFrom(text, tag, 0);
      if at > |text| || at + |tag| > |text| then None else Some((text[..at], text[at + |tag|..]))
  }

  lemma {:induction false} FirstIsAt(text: string, part: string, start: nat, at: nat)
    requires start <= at <= |text| && OccursAt(text, part, at)
    requires forall k | start <= k < at :: !OccursAt(text, part, k)
    ensures FirstFrom(text, part, start) == at
    decreases at - start
  {
    if start < at { FirstIsAt(text, part, start + 1, at); }
  }

  lemma TagsHaveNoNewline(tag: string)
    requires IsTag(tag)
    ensures '\n' !in tag
  {
    if tag != FIRST_TAG {
      var d :| 0 <= d < DRAWS && tag == Tag(d);
      HexIsPrintable(d, 8);
    }
  }

  /** An occurrence before the closing place lies inside the body or covers one of the newlines around it. */
  lemma EarlyOccurrence(tag: string, cypher: string, rest: string, k: nat)
    requires tag != [] && k < |cypher| + 2 && OccursAt("\n" + cypher + "\n" + tag + rest, tag, k)
    ensures Contains(cypher, tag) || '\n' in tag
  {
    var text, n := "\n" + cypher + "\n" + tag + rest, |tag|;
    assert forall i | 0 <= i < n :: tag[i] == text[k..k + n][i] == text[k + i];
    if k == 0 {
      assert tag[0] == '\n';
    } else if k + n <= |cypher| + 1 {
      assert cypher[k - 1..k - 1 + n] == tag;
      assert OccursAt(cypher, tag, k - 1);
    } else {
      assert tag[|cypher| + 1 - k] == '\n';
    }
  }

  /** The wrapped query is recovered exactly by scanning for the first closing tag, whatever follows it. */
  lemma WrappedIsRecovered(tag: string, cypher: string, rest: string)
    requires IsTag(tag) && !Contains(cypher, tag)
    ensures ScanDollar(Wrapped(tag, cypher) + rest, tag) == Some(("\n" + cypher + "\n", rest))
  {
    TagsHaveNoNewline(tag);
    var s, text, body := Wrapped(tag, cypher) + rest, "\n" + cypher + "\n" + tag + rest, "\n" + cypher + "\n";
    assert s == tag + text && s[|tag|..] == text;
    assert text == body + tag + rest;
    assert OccursAt(text, tag, |body|);
    forall k | 0 <= k < |body| ensures !OccursAt(text, tag, k) {
      if OccursAt(text, tag, k) { EarlyOccurrence(tag, cypher, rest, k); }
    }
    FirstIsAt(text, tag, 0, |body|);
    assert text[..|body|] == body && text[|body| + |tag|..] == rest;
  }

  lemma TagsAreDistinct(a: nat, b: nat)
    requires a < DRAWS && b < DRAWS && Tag(a) == Tag(b)
    ensures a == b
  {
    assert Power16(8) == 0x1_0000_0000;
    assert Tag(a)[2..10] == Hex(a, 8) && Tag(b)[2..10] == Hex(b, 8);
    HexIsReadBack(a, 8);
    HexIsReadBack(b, 8);
  }

  lemma SamePlaceSameTag(cypher: string, at: nat, a: nat, b: nat)
    requires a < DRAWS && b < DRAWS && OccursAt(cypher, Tag(a), at) && OccursAt(cypher, Tag(b), at)
    ensures a == b
  {
    hide Hex;
    TagsAreDistinct(a, b);
  }

  ghost predicate SomeTagAt(cypher: string, n: nat, at: nat)
    requires n <= DRAWS
  {
    exists d | 0 <= d < n :: OccursAt(cypher, Tag(d), at)
  }

  lemma {:induction false} PositionsOfTags(cypher: string, n: nat) returns (positions: set<nat>)
    requires n <= DRAWS && forall d | 0 <= d < n :: Contains(cypher, Tag(d))
    ensures |positions| == n
    ensures forall p | p in positions :: p < |cypher| && SomeTagAt(cypher, n, p)
  {
    positions := {};
    if n > 0 {
      positions := PositionsOfTags(cypher, n - 1);
      var at: nat :| at <= |cypher| && OccursAt(cypher, Tag(n - 1), at);
      NewPlace(cypher, n, at);
      positions := positions + {at};
    }
  }

  lemma NewPlace(cypher: string, n: nat, at: nat)
    requires 0 < n <= DRAWS && OccursAt(cypher, Tag(n - 1), at)
    ensures !SomeTagAt(cypher, n - 1, at) && SomeTagAt(cypher, n, at) && at < |cypher|
    ensures forall p | SomeTagAt(cypher, n - 1, p) :: SomeTagAt(cypher, n, p)
  {
    forall d | 0 <= d < n - 1 ensures !OccursAt(cypher, Tag(d), at) {
      if OccursAt(cypher, Tag(d), at) { SamePlaceSameTag(cypher, at, d, n - 1); }
    }
  }

  lemma {:induction false} BelowBound(s: set<nat>, bound: nat)
    requires forall x | x in s :: x < bound
    ensures |s| <= bound
  {
    if bound > 0 {
      BelowBound(s - {bound - 1}, bound - 1);
    } else {
      assert s == {};
    }
  }

  /** Every body shorter than the number of tags leaves a tag free, so some draw ends the search. */
  lemma FreeTagExists(cypher: string) returns (draw: nat)
    requires |cypher| < DRAWS
    ensures draw < DRAWS && !Contains(cypher, Tag(draw))
  {
    if forall d | 0 <= d < DRAWS :: Contains(cypher, Tag(d)) {
      var positions := PositionsOfTags(cypher, DRAWS);
      BelowBound(positions, |cypher|);
      assert false;
    }
    draw :| 0 <= draw < DRAWS && !Contains(cypher, Tag(draw));
  }
}
