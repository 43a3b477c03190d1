/**
  The scanner's HTML escaping (`escapeHtml`): each of the five characters `& < > " '` is
  replaced by its character reference and every other character is copied. `Unescape` is
  its partner: it reads the five references back, so escaping loses nothing.
 */
module Html {

  /** The characters `escapeHtml` rewrites. */
  predicate IsSpecial(c: char) {
    c == '&' || c == '<' || c == '>' || c == '"' || c == '\''
  }

  /** The replacement table of `escapeHtml`. */
  function EscapeChar(c: char): (r: string)
    ensures |r| >= 1 && (r[0] == '&' <==> IsSpecial(c))
    ensures !IsSpecial(c) ==> r == [c]
  {
    match c
    case '&' => "&amp;"
    case '<' => "&lt;"
    case '>' => "&gt;"
    case '"' => "&quot;"
    case '\'' => "&#039;"
    case _ => [c]
  }

  /** True when `r` has `e` as a factor starting at position `i`. */
  predicate OccursAt(r: string, i: int, e: string) {
    0 <= i && i + |e| <= |r| && r[i..i + |e|] == e
  }

  /** True when the `&` at position `i` of `r` opens one of the five references. */
  predicate EntityAt(r: string, i: int) {
    OccursAt(r, i, "&amp;") || OccursAt(r, i, "&lt;") || OccursAt(r, i, "&gt;") ||
    OccursAt(r, i, "&quot;") || OccursAt(r, i, "&#039;")
  }

  /** Position `i` of `r` is none of `< > " '`, and an `&` there opens a reference. */
  predicate EscapedAt(r: string, i: int)
    requires 0 <= i < |r|
  {
    r[i] != '<' && r[i] != '>' && r[i] != '"' && r[i] != '\'' &&
    (r[i] == '&' ==> EntityAt(r, i))
  }

  /** The output alphabet of `escapeHtml`: no `< > " '`, and every `&` opens a reference. */
  predicate IsEscaped(r: string) {
    forall i :: 0 <= i < |r| ==> EscapedAt(r, i)
  }

  /** `escapeHtml(text)`: the global replace of `[&<>"']` with the table above. */
  function EscapeHtml(s: string): (r: string)
    ensures |r| >= |s|
    ensures IsEscaped(r)
  {
    if s == [] then []
    else
      var head := EscapeChar(s[0]);
      var rest := EscapeHtml(s[1..]);
      EscapedConcat(s[0], rest);
      head + rest
  }

  /** An escaped character followed by an escaped string is escaped: a reference never
      straddles the boundary, because each one lies wholly inside `EscapeChar(c)`. */
  lemma EscapedConcat(c: char, rest: string)
    requires IsEscaped(rest)
    ensures IsEscaped(EscapeChar(c) + rest)
  {
    var head := EscapeChar(c);
    var r := head + rest;
    forall i | 0 <= i < |r| ensures EscapedAt(r, i) {
      if i < |head| {
        EscapedInHead(c, rest, i);
      } else {
        assert r[i] == rest[i - |head|];
        assert EscapedAt(rest, i - |head|);
        if r[i] == '&' {
          ShiftEntity(head, rest, i - |head|);
        }
      }
    }
  }

  /** Inside the replacement of one character there is no `< > " '`, and the only `&` is
      the first character of a whole reference. */
  lemma EscapedInHead(c: char, rest: string, i: int)
    requires 0 <= i < |EscapeChar(c)|
    ensures EscapedAt(EscapeChar(c) + rest, i)
  {
    var head := EscapeChar(c);
    var r := head + rest;
    assert r[i] == head[i];
    if IsSpecial(c) {
      assert r[..|head|] == head;
      assert OccursAt(r, 0, head);
    }
  }

  /** A reference in `rest` stays a reference after anything is put in front. */
  lemma ShiftEntity(head: string, rest: string, j: int)
    requires EntityAt(rest, j)
    ensures EntityAt(head + rest, |head| + j)
  {
    var r := head + rest;
    forall e: string | OccursAt(rest, j, e) ensures OccursAt(r, |head| + j, e) {
      assert r[|head| + j..|head| + j + |e|] == rest[j..j + |e|];
    }
  }

  /** Escaping distributes over concatenation: each character is rewritten on its own
      and the order of characters is kept. */
  lemma {:induction false} EscapeHtmlConcat(a: string, b: string)
    ensures EscapeHtml(a + b) == EscapeHtml(a) + EscapeHtml(b)
  {
    if a == [] {
      assert a + b == b;
    } else {
      assert (a + b)[0] == a[0];
      assert (a + b)[1..] == a[1..] + b;
      EscapeHtmlConcat(a[1..], b);
    }
  }

  /** Text with none of the five characters passes through unchanged. */
  lemma {:induction false} EscapeHtmlPlain(s: string)
    requires forall i :: 0 <= i < |s| ==> !IsSpecial(s[i])
    ensures EscapeHtml(s) == s
  {
    if s != [] {
      EscapeHtmlPlain(s[1..]);
    }
  }

  /** Reads the five references back into the characters they stand for; anything else
      is copied. */
  function Unescape(r: string): (s: string)
    ensures |s| <= |r|
    decreases |r|
  {
    if r == [] then []
    else if r[0] != '&' then [r[0]] + Unescape(r[1..])
    else if OccursAt(r, 0, "&amp;") then "&" + Unescape(r[5..])
    else if OccursAt(r, 0, "&lt;") then "<" + Unescape(r[4..])
    else if OccursAt(r, 0, "&gt;") then ">" + Unescape(r[4..])
    else if OccursAt(r, 0, "&quot;") then "\"" + Unescape(r[6..])
    else if OccursAt(r, 0, "&#039;") then "'" + Unescape(r[6..])
    else [r[0]] + Unescape(r[1..])
  }

  /** No reference starts at an ordinary character. */
  lemma UnescapePlain(c: char, rest: string)
    requires !IsSpecial(c)
    ensures Unescape([c] + rest) == [c] + Unescape(rest)
  {
    var r := [c] + rest;
    assert r[0] == c;
    assert r[1..] == rest;
  }

  /** A reference at the front is read back as the character it replaced. Each of the
      five references is told apart from the others by its second character. */
  lemma UnescapeSpecial(c: char, rest: string)
    requires IsSpecial(c)
    ensures Unescape(EscapeChar(c) + rest) == [c] + Unescape(rest)
  {
    var head := EscapeChar(c);
    var r := head + rest;
    assert r[..|head|] == head;
    assert r[|head|..] == rest;
    assert r[1] == head[1];
    if c != '&' { SecondCharDiffers(r, "&amp;"); }
    if c != '<' { SecondCharDiffers(r, "&lt;"); }
    if c != '>' { SecondCharDiffers(r, "&gt;"); }
    if c != '"' { SecondCharDiffers(r, "&quot;"); }
  }

  lemma SecondCharDiffers(r: string, e: string)
    requires |r| >= 2 && |e| >= 2 && r[1] != e[1]
    ensures !OccursAt(r, 0, e)
  {
  }

  /** Unescaping undoes one step of escaping. */
  lemma UnescapeEscapeChar(c: char, rest: string)
    ensures Unescape(EscapeChar(c) + rest) == [c] + Unescape(rest)
  {
    if IsSpecial(c) {
      UnescapeSpecial(c, rest);
    } else {
      UnescapePlain(c, rest);
    }
  }

  /** Escaping is injective: `Unescape` recovers the original text. */
  lemma {:induction false} UnescapeEscapeHtml(s: string)
    ensures Unescape(EscapeHtml(s)) == s
  {
    if s != [] {
      UnescapeEscapeChar(s[0], EscapeHtml(s[1..]));
      UnescapeEscapeHtml(s[1..]);
      assert s == [s[0]] + s[1..];
    }
  }
}
