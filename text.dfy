/**
 * The three text transforms of the DOT emitter: turning an issue id into a
 * DOT identifier, expanding a colour literal to six hex digits, and escaping
 * free text for an HTML-like label.
 */
module Text {

  import opened Wrappers

  // ---------------------------------------------------------------------
  // Identifiers (labelFromId)
  // ---------------------------------------------------------------------

  predicate IsDigit(c: char) { '0' <= c <= '9' }

  /** A character of the class `[a-zA-Z0-9_]`. */
  predicate IsIdentChar(c: char) {
    ('a' <= c <= 'z') || ('A' <= c <= 'Z') || IsDigit(c) || c == '_'
  }

  /**
   * Only `[a-zA-Z0-9_]` and no leading digit. The empty string qualifies too:
   * DOT would not accept it as a name, but an issue id is never empty.
   */
  predicate IsIdentifier(s: string) {
    (forall i | 0 <= i < |s| :: IsIdentChar(s[i])) && (|s| > 0 ==> !IsDigit(s[0]))
  }

  /** Every character outside `[a-zA-Z0-9_]` becomes an underscore. */
  function ReplaceNonIdentChars(s: string): (r: string)
    ensures |r| == |s|
    ensures forall i | 0 <= i < |s| :: r[i] == if IsIdentChar(s[i]) then s[i] else '_'
  {
    if s == [] then []
    else [if IsIdentChar(s[0]) then s[0] else '_'] + ReplaceNonIdentChars(s[1..])
  }

  /** True when `id` starts with a digit, i.e. when `/^[0-9]/` matches. */
  predicate StartsWithDigit(id: string) { |id| > 0 && IsDigit(id[0]) }

  /**
   * The DOT identifier of an issue id: an underscore is put in front of a leading digit, then every character
   * outside `[a-zA-Z0-9_]` becomes an underscore. The empty id stays empty.
   */
  function LabelFromId(id: string): (r: string)
    ensures IsIdentifier(r)
    ensures |r| == |id| + (if StartsWithDigit(id) then 1 else 0)
    ensures StartsWithDigit(id) ==> r[0] == '_'
    ensures forall i | 0 <= i < |id| ::
              var j := if StartsWithDigit(id) then i + 1 else i;
              r[j] == if IsIdentChar(id[i]) then id[i] else '_'
    ensures r == id <==> IsIdentifier(id)
    ensures id == [] ==> r == []
  {
    var prefixed := if StartsWithDigit(id) then "_" + id else id;
    assert forall i | 0 <= i < |id| :: prefixed[if StartsWithDigit(id) then i + 1 else i] == id[i];
    ReplaceNonIdentChars(prefixed)
  }

  /** Sanitising twice is sanitising once. */
  lemma LabelFromIdIdempotent(id: string)
    ensures LabelFromId(LabelFromId(id)) == LabelFromId(id)
  {
  }

  /** The id of a subtask maps to an identifier with the dash replaced. */
  lemma LabelFromIdDash()
    ensures LabelFromId("XYZ-1") == "XYZ_1"
  {
    var id := "XYZ-1";
    var r := LabelFromId(id);
    assert !StartsWithDigit(id);
    assert r[0] == id[0] && r[1] == id[1] && r[2] == id[2] && r[4] == id[4];
    assert r[3] == '_';
  }

  /** A dot is replaced in the same way. */
  lemma LabelFromIdDot()
    ensures LabelFromId("XYZ.1") == "XYZ_1"
  {
    var id := "XYZ.1";
    var r := LabelFromId(id);
    assert !StartsWithDigit(id);
    assert r[0] == id[0] && r[1] == id[1] && r[2] == id[2] && r[4] == id[4];
    assert r[3] == '_';
  }

  /** Distinct ids may collide: the mapping is not injective. */
  lemma LabelFromIdCollides()
    ensures LabelFromId("XYZ-1") == LabelFromId("XYZ.1")
    ensures "XYZ-1" != "XYZ.1"
  {
    LabelFromIdDash();
    LabelFromIdDot();
  }

  /** A leading digit gets an underscore in front. */
  lemma LabelFromIdLeadingDigit()
    ensures LabelFromId("1a") == "_1a"
  {
    var r := LabelFromId("1a");
    assert StartsWithDigit("1a");
    assert forall i | 0 <= i < 3 :: r[i] == "_1a"[i];
  }

  // ---------------------------------------------------------------------
  // Colours (sixDigitColor)
  // ---------------------------------------------------------------------

  predicate IsHexDigit(c: char) {
    IsDigit(c) || ('a' <= c <= 'f') || ('A' <= c <= 'F')
  }

  predicate AllHex(s: string) { forall i | 0 <= i < |s| :: IsHexDigit(s[i]) }

  /** `^#(?:[0-9a-fA-F]{3}|[0-9a-fA-F]{6})$`. */
  predicate IsColorLiteral(s: string) {
    |s| > 0 && s[0] == '#' && (|s| == 4 || |s| == 7) && AllHex(s[1..])
  }

  /** `#` followed by exactly six hex digits. */
  predicate IsSixDigitColor(s: string) {
    |s| == 7 && s[0] == '#' && AllHex(s[1..])
  }

  /**
   * sixDigitColor: the assertion on the pattern becomes `None` (the thrown
   * AssertionError); a three-digit literal has each digit doubled and a
   * six-digit literal is returned unchanged.
   */
  function SixDigitColor(color: string): (r: Option<string>)
    ensures r.Some? <==> IsColorLiteral(color)
    ensures r.Some? ==> IsSixDigitColor(r.value)
    ensures r.Some? && |color| == 7 ==> r.value == color
    ensures r.Some? && |color| == 4 ==> forall k | 0 <= k < 6 :: r.value[k + 1] == color[k / 2 + 1]
  {
    if !IsColorLiteral(color) then None
    else if |color| == 4 then
      Some(['#', color[1], color[1], color[2], color[2], color[3], color[3]])
    else Some(color)
  }

  /** The output is accepted again and passes unchanged. */
  lemma SixDigitColorIdempotent(color: string)
    requires IsColorLiteral(color)
    ensures SixDigitColor(SixDigitColor(color).value) == SixDigitColor(color)
  {
  }

  /** Examples: the short and the long form agree; malformed literals fail. */
  lemma SixDigitColorExamples()
    ensures SixDigitColor("#abc") == SixDigitColor("#aabbcc") == Some("#aabbcc")
    ensures SixDigitColor("#111") == Some("#111111")
    ensures SixDigitColor("#xyz").None?
    ensures SixDigitColor("#12").None?
    ensures SixDigitColor("#gggggg").None?
  {
    assert !IsHexDigit("#xyz"[1..][0]);
    assert !IsHexDigit("#gggggg"[1..][0]);
  }

  // ---------------------------------------------------------------------
  // HTML entities (replaceWithHtmlEntities)
  // ---------------------------------------------------------------------

  /** One of the five characters that the entity map of replaceWithHtmlEntities replaces. */
  predicate IsSpecial(c: char) { c == '&' || c == '<' || c == '>' || c == '"' || c == '\'' }

  /** Characters that may not appear in escaped text at all. */
  predicate IsMarkup(c: char) { c == '<' || c == '>' || c == '"' || c == '\'' }

  function Entity(c: char): (r: string)
  {
    match c
    case '&' => "&amp;"
    case '<' => "&lt;"
    case '>' => "&gt;"
    case '"' => "&quot;"
    case '\'' => "&#039;"
    case _ => [c]
  }

  predicate HasNoSpecial(s: string) { forall i | 0 <= i < |s| :: !IsSpecial(s[i]) }

  predicate HasNoMarkup(s: string) { forall i | 0 <= i < |s| :: !IsMarkup(s[i]) }

  /** Each of the five special characters becomes its entity; everything else is kept. */
  function ReplaceWithHtmlEntities(text: string): (r: string)
    ensures HasNoMarkup(r)
    ensures HasNoSpecial(text) ==> r == text
    ensures |r| >= |text|
  {
    if text == [] then []
    else Entity(text[0]) + ReplaceWithHtmlEntities(text[1..])
  }

  /** The replacement works character by character. */
  lemma {:induction false} ReplaceWithHtmlEntitiesAppend(a: string, b: string)
    ensures ReplaceWithHtmlEntities(a + b) == ReplaceWithHtmlEntities(a) + ReplaceWithHtmlEntities(b)
  {
    if a == [] {
      assert a + b == b;
    } else {
      assert (a + b)[1..] == a[1..] + b;
      ReplaceWithHtmlEntitiesAppend(a[1..], b);
    }
  }

  /** Position `i` of `s` begins one of the five entities. */
  predicate BeginsEntity(s: string, i: nat)
    requires i <= |s|
  {
    var t := s[i..];
    "&amp;" <= t || "&lt;" <= t || "&gt;" <= t || "&quot;" <= t || "&#039;" <= t
  }

  /** Every `&` of `s` begins an entity. */
  predicate AmpersandsBeginEntities(s: string) {
    forall i | 0 <= i < |s| && s[i] == '&' :: BeginsEntity(s, i)
  }

  lemma EntityAmpersands(c: char)
    ensures AmpersandsBeginEntities(Entity(c))
  {
    var e := Entity(c);
    forall i | 0 <= i < |e| && e[i] == '&' ensures BeginsEntity(e, i) {
      assert i == 0;
      assert e[0..] == e;
    }
  }

  /** An entity that begins in `a` still begins there once `b` follows. */
  lemma BeginsEntityBefore(a: string, b: string, i: nat)
    requires i < |a| && BeginsEntity(a, i)
    ensures BeginsEntity(a + b, i)
  {
    assert (a + b)[i..] == a[i..] + b;
  }

  /** An entity that begins in `b` still begins there once `a` precedes it. */
  lemma BeginsEntityAfter(a: string, b: string, i: nat)
    requires i <= |b| && BeginsEntity(b, i)
    ensures BeginsEntity(a + b, |a| + i)
  {
    assert (a + b)[|a| + i..] == b[i..];
  }

  /** Joining two texts whose every `&` begins an entity keeps that so. */
  lemma AmpersandsBeginEntitiesConcat(a: string, b: string)
    requires AmpersandsBeginEntities(a) && AmpersandsBeginEntities(b)
    ensures AmpersandsBeginEntities(a + b)
  {
    var r := a + b;
    forall i | 0 <= i < |r| && r[i] == '&' ensures BeginsEntity(r, i) {
      if i < |a| {
        BeginsEntityBefore(a, b, i);
      } else {
        assert b[i - |a|] == '&';
        BeginsEntityAfter(a, b, i - |a|);
      }
    }
  }

  /** In escaped text every `&` is the start of an entity. */
  lemma {:induction false} AmpersandsBeginEntitiesInOutput(text: string)
    ensures AmpersandsBeginEntities(ReplaceWithHtmlEntities(text))
  {
    if text != [] {
      EntityAmpersands(text[0]);
      AmpersandsBeginEntitiesInOutput(text[1..]);
      AmpersandsBeginEntitiesConcat(Entity(text[0]), ReplaceWithHtmlEntities(text[1..]));
    }
  }

  /** Reads the five entities back: the inverse of the escaping. */
  function Unescape(s: string): string
    decreases |s|
  {
    if s == [] then []
    else if s[0] != '&' then [s[0]] + Unescape(s[1..])
    else if "&amp;" <= s then "&" + Unescape(s[5..])
    else if "&lt;" <= s then "<" + Unescape(s[4..])
    else if "&gt;" <= s then ">" + Unescape(s[4..])
    else if "&quot;" <= s then "\"" + Unescape(s[6..])
    else if "&#039;" <= s then "'" + Unescape(s[6..])
    else [s[0]] + Unescape(s[1..])
  }

  lemma UnescapeEntity(c: char, rest: string)
    ensures Unescape(Entity(c) + rest) == [c] + Unescape(rest)
  {
    var s := Entity(c) + rest;
    match c
    case '&' =>
      assert "&amp;" <= s && s[5..] == rest;
    case '<' =>
      assert s[1] == 'l';
      assert "&lt;" <= s && s[4..] == rest;
    case '>' =>
      assert s[1] == 'g';
      assert "&gt;" <= s && s[4..] == rest;
    case '"' =>
      assert s[1] == 'q';
      assert "&quot;" <= s && s[6..] == rest;
    case '\'' =>
      assert s[1] == '#';
      assert "&#039;" <= s && s[6..] == rest;
    case _ =>
      assert s[0] == c && s[1..] == rest;
  }

  /** Escaping loses nothing: unescaping gives the text back. */
  lemma {:induction false} UnescapeInvertsReplace(text: string)
    ensures Unescape(ReplaceWithHtmlEntities(text)) == text
  {
    if text != [] {
      UnescapeEntity(text[0], ReplaceWithHtmlEntities(text[1..]));
      UnescapeInvertsReplace(text[1..]);
    }
  }

  /** Hence two different texts never escape to the same label text. */
  lemma ReplaceWithHtmlEntitiesInjective(a: string, b: string)
    requires ReplaceWithHtmlEntities(a) == ReplaceWithHtmlEntities(b)
    ensures a == b
  {
    UnescapeInvertsReplace(a);
    UnescapeInvertsReplace(b);
  }

  lemma ReplaceWithHtmlEntitiesExamples()
    ensures ReplaceWithHtmlEntities("<") == "&lt;"
    ensures ReplaceWithHtmlEntities("a&'") == "a&amp;&#039;"
  {
    assert ReplaceWithHtmlEntities("'") == "&#039;";
    assert "a&'"[1..] == "&'" && "&'"[1..] == "'";
  }
}
