/**
 * `escapeHtml` (index.js:30-35): neutralises the three characters that
 * Telegram's HTML parse mode reads as markup, by three successive
 * `replaceAll` passes, `&` first.
 */
module Html {

  /**
   * `String.prototype.replaceAll` with a one-character pattern: every
   * occurrence of `c` becomes `replacement`, every other character stays.
   */
  function ReplaceAll(s: string, c: char, replacement: string): (r: string)
    ensures forall x :: x in r ==> (x in s && x != c) || x in replacement
    ensures c !in s ==> r == s
  {
    if s == [] then []
    else (if s[0] == c then replacement else [s[0]]) + ReplaceAll(s[1..], c, replacement)
  }

  /** escapeHtml as the source writes it: `&` first, then `<`, then `>`. */
  function EscapeHtml(s: string): (r: string)
    ensures '<' !in r && '>' !in r
    ensures '&' !in s && '<' !in s && '>' !in s ==> r == s
  {
    ReplaceAll(ReplaceAll(ReplaceAll(s, '&', "&amp;"), '<', "&lt;"), '>', "&gt;")
  }

  /** The entity each character stands for once escaped. */
  function Token(c: char): string {
    if c == '&' then "&amp;"
    else if c == '<' then "&lt;"
    else if c == '>' then "&gt;"
    else [c]
  }

  /** Escaping one character at a time: the reference for EscapeHtml. */
  function Tokens(s: string): string {
    if s == [] then [] else Token(s[0]) + Tokens(s[1..])
  }

  /** Reads the three entities back into the characters they stand for. */
  function Unescape(s: string): string {
    if s == [] then []
    else if |s| >= 5 && s[..5] == "&amp;" then "&" + Unescape(s[5..])
    else if |s| >= 4 && s[..4] == "&lt;" then "<" + Unescape(s[4..])
    else if |s| >= 4 && s[..4] == "&gt;" then ">" + Unescape(s[4..])
    else [s[0]] + Unescape(s[1..])
  }

  lemma {:induction false} ReplaceAllAppend(a: string, b: string, c: char, replacement: string)
    ensures ReplaceAll(a + b, c, replacement) == ReplaceAll(a, c, replacement) + ReplaceAll(b, c, replacement)
  {
    if a == [] {
      assert a + b == b;
    } else {
      assert (a + b)[0] == a[0] && (a + b)[1..] == a[1..] + b;
      ReplaceAllAppend(a[1..], b, c, replacement);
    }
  }

  lemma ReplaceOne(x: char, c: char, replacement: string)
    ensures ReplaceAll([x], c, replacement) == if x == c then replacement else [x]
  {
    assert [x][1..] == [];
  }

  /** The three passes, applied to a single character, give that character's entity. */
  lemma EscapeOneCharacter(x: char)
    ensures EscapeHtml([x]) == Token(x)
  {
    ReplaceOne(x, '&', "&amp;");
    if x == '&' {
      var a := "&amp;";
      assert '<' !in a && '>' !in a;
    } else {
      ReplaceOne(x, '<', "&lt;");
      if x == '<' {
        var l := "&lt;";
        assert '>' !in l;
      } else {
        ReplaceOne(x, '>', "&gt;");
      }
    }
  }

  /**
   * Each input character maps to exactly one output token: `&` is replaced
   * first, so the `&` that the later passes introduce is never escaped again.
   */
  lemma {:induction false} EscapeHtmlPerCharacter(s: string)
    ensures EscapeHtml(s) == Tokens(s)
  {
    if s != [] {
      var x, rest := s[0], s[1..];
      assert s == [x] + rest;
      ReplaceAllAppend([x], rest, '&', "&amp;");
      ReplaceAllAppend(ReplaceAll([x], '&', "&amp;"), ReplaceAll(rest, '&', "&amp;"), '<', "&lt;");
      ReplaceAllAppend(ReplaceAll(ReplaceAll([x], '&', "&amp;"), '<', "&lt;"),
                       ReplaceAll(ReplaceAll(rest, '&', "&amp;"), '<', "&lt;"), '>', "&gt;");
      EscapeOneCharacter(x);
      EscapeHtmlPerCharacter(rest);
    }
  }

  /** Escaping loses nothing: Unescape recovers the original text. */
  lemma {:induction false} UnescapeTokens(s: string)
    ensures Unescape(Tokens(s)) == s
  {
    if s != [] {
      UnescapeTokens(s[1..]);
      UnescapeToken(s[0], Tokens(s[1..]));
      assert s == [s[0]] + s[1..];
    }
  }

  /** Unescape reads one character's entity back, whatever follows it. */
  lemma UnescapeToken(x: char, u: string)
    ensures Unescape(Token(x) + u) == [x] + Unescape(u)
  {
    if x == '&' {
      UnescapeAmp(u);
    } else if x == '<' {
      UnescapeLt(u);
    } else if x == '>' {
      UnescapeGt(u);
    } else {
      UnescapePlain(x, u);
    }
  }

  lemma UnescapeAmp(u: string)
    ensures Unescape("&amp;" + u) == "&" + Unescape(u)
  {
    var t := "&amp;" + u;
    assert t[..5] == "&amp;" && t[5..] == u;
  }

  lemma UnescapeLt(u: string)
    ensures Unescape("&lt;" + u) == "<" + Unescape(u)
  {
    var t := "&lt;" + u;
    assert t[1] == 'l';
    assert t[..4] == "&lt;" && t[4..] == u;
  }

  lemma UnescapeGt(u: string)
    ensures Unescape("&gt;" + u) == ">" + Unescape(u)
  {
    var t := "&gt;" + u;
    assert t[1] == 'g';
    assert t[..4] == "&gt;" && t[4..] == u;
  }

  lemma UnescapePlain(x: char, u: string)
    requires x != '&'
    ensures Unescape([x] + u) == [x] + Unescape(u)
  {
    var t := [x] + u;
    assert t[0] == x && t[1..] == u;
  }

  /** The round trip through escaping, and hence injectivity of escapeHtml. */
  lemma UnescapeEscapeHtml(s: string)
    ensures Unescape(EscapeHtml(s)) == s
  {
    EscapeHtmlPerCharacter(s);
    UnescapeTokens(s);
  }
}
