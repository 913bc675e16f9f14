/** Escaping search terms for SQL LIKE with `ESCAPE '\'`. */
module LikePattern {
  import opened Text

  // ---------- LIKE ----------

  // A pattern that ends in a lone escape character matches nothing.
  predicate Like(p: string, s: string)
    decreases |p|, |s|
  {
    if p == "" then s == ""
    else if p[0] == '%' then Like(p[1..], s) || (s != "" && Like(p, s[1..]))
    else if p[0] == '_' then s != "" && Like(p[1..], s[1..])
    else if p[0] == '\\' then |p| > 1 && s != "" && s[0] == p[1] && Like(p[2..], s[1..])
    else s != "" && s[0] == p[0] && Like(p[1..], s[1..])
  }

  predicate Meta(c: char) {
    c == '\\' || c == '%' || c == '_'
  }

  function EscapeChar(c: char): string {
    if Meta(c) then ['\\', c] else [c]
  }

  function Escape(term: string): string {
    if term == "" then "" else EscapeChar(term[0]) + Escape(term[1..])
  }

  lemma {:induction false} EscapeSnoc(a: string, c: char)
    ensures Escape(a + [c]) == Escape(a) + EscapeChar(c)
  {
    if a == "" {
      assert a + [c] == [c] && [c][1..] == "";
    } else {
      assert (a + [c])[1..] == a[1..] + [c];
      EscapeSnoc(a[1..], c);
    }
  }

  /** The escaped term is matched literally: with any pattern after it, it consumes exactly itself. */
  lemma {:induction false} EscapedIsLiteral(term: string, rest: string, s: string)
    ensures Like(Escape(term) + rest, s) <==> term <= s && Like(rest, s[|term|..])
    decreases |term|
  {
    var p := Escape(term) + rest;
    if term == "" {
      assert p == rest && s[0..] == s;
    } else {
      var tail := Escape(term[1..]) + rest;
      assert p == EscapeChar(term[0]) + tail;
      assert if Meta(term[0]) then p[2..] == tail else p[1..] == tail;
      if s != "" && s[0] == term[0] {
        EscapedIsLiteral(term[1..], rest, s[1..]);
        assert term <= s <==> term[1..] <= s[1..];
        assert term <= s ==> s[|term|..] == s[1..][|term[1..]|..];
      }
    }
  }

  lemma {:induction false} PercentMatchesAll(s: string)
    ensures Like("%", s)
    decreases |s|
  {
    assert "%"[1..] == "";
    if s != "" {
      PercentMatchesAll(s[1..]);
    }
  }

  /** A search pattern matches exactly the strings that start with the term, whatever it contains. */
  lemma {:induction false} EscapedPrefix(term: string, s: string)
    ensures Like(Escape(term) + "%", s) <==> term <= s
  {
    EscapedIsLiteral(term, "%", s);
    if term <= s {
      PercentMatchesAll(s[|term|..]);
    }
  }

  /** `escape_like_pattern` */
  method EscapeLikePattern(term: string) returns (escaped: string)
    ensures escaped == Escape(term)
    ensures forall s :: Like(escaped + "%", s) <==> term <= s
  {
    escaped := "";
    for i := 0 to |term|
      invariant escaped == Escape(term[..i])
    {
      EscapeSnoc(term[..i], term[i]);
      assert term[..i + 1] == term[..i] + [term[i]];
      if term[i] == '\\' || term[i] == '%' || term[i] == '_' {
        escaped := escaped + ['\\'];
      }
      escaped := escaped + [term[i]];
    }
    assert term[..|term|] == term;
    forall s ensures Like(escaped + "%", s) <==> term <= s {
      EscapedPrefix(term, s);
    }
  }

  // ---------- The username pattern ----------

  // Lower-casing one character may give several, and none at all is not excluded.
  type Fold = char -> string

  // ASCII is lower-cased as usual; no other character turns into a metacharacter.
  ghost predicate Lowering(fold: Fold) {
    forall c: char :: if c as int < 128 then fold(c) == [LowerChar(c)] else Plain(fold(c))
  }

  predicate Plain(s: string) {
    forall i :: 0 <= i < |s| ==> !Meta(s[i])
  }

  function FoldAll(fold: Fold, s: string): string {
    if s == "" then "" else fold(s[0]) + FoldAll(fold, s[1..])
  }

  lemma {:induction false} EscapePlain(a: string, b: string)
    requires Plain(a)
    ensures Escape(a + b) == a + Escape(b)
  {
    if a == "" {
      assert a + b == b;
    } else {
      assert (a + b)[1..] == a[1..] + b;
      EscapePlain(a[1..], b);
    }
  }

  lemma {:induction false} FoldEscaped(fold: Fold, c: char, rest: string)
    requires Lowering(fold)
    ensures FoldAll(fold, EscapeChar(c) + rest) == (if Meta(c) then ['\\', c] else fold(c)) + FoldAll(fold, rest)
  {
    var s := EscapeChar(c) + rest;
    if Meta(c) {
      assert s[1..] == [c] + rest && s[1..][1..] == rest;
      assert fold('\\') == ['\\'] && fold(c) == [c];
    } else {
      assert s[1..] == rest;
    }
  }

  // Lower-casing after escaping is escaping after lower-casing.
  lemma {:induction false} FoldEscape(fold: Fold, term: string)
    requires Lowering(fold)
    ensures FoldAll(fold, Escape(term)) == Escape(FoldAll(fold, term))
    decreases |term|
  {
    if term != "" {
      var c, rest := term[0], term[1..];
      FoldEscape(fold, rest);
      FoldEscaped(fold, c, Escape(rest));
      if Meta(c) {
        assert fold(c) == [c];
        assert ([c] + FoldAll(fold, rest))[1..] == FoldAll(fold, rest);
      } else {
        assert Plain(fold(c));
        EscapePlain(fold(c), FoldAll(fold, rest));
      }
    }
  }

  /** However characters beyond ASCII are lower-cased, lower-casing after escaping matches exactly the
      stored names that start with the lower-cased term. */
  lemma {:induction false} UsernamePrefix(fold: Fold, term: string, stored: string)
    requires Lowering(fold)
    ensures Like(FoldAll(fold, Escape(term)) + "%", stored) <==> FoldAll(fold, term) <= stored
  {
    FoldEscape(fold, term);
    EscapedPrefix(FoldAll(fold, term), stored);
  }

  lemma {:induction false} FoldAscii(fold: Fold, s: string)
    requires Lowering(fold) && forall i :: 0 <= i < |s| ==> s[i] as int < 128
    ensures FoldAll(fold, s) == Lower(s)
  {
    if s != "" {
      FoldAscii(fold, s[1..]);
      assert Lower(s)[1..] == Lower(s[1..]);
    }
  }

  /** For an ASCII term these are the names with the term as prefix, letter case aside. */
  lemma {:induction false} AsciiUsernamePrefix(fold: Fold, term: string, stored: string)
    requires Lowering(fold) && forall i :: 0 <= i < |term| ==> term[i] as int < 128
    ensures Like(FoldAll(fold, Escape(term)) + "%", Lower(stored))
            <==> |term| <= |stored| && forall i :: 0 <= i < |term| ==> LowerChar(term[i]) == LowerChar(stored[i])
  {
    var a, b := Lower(term), Lower(stored);
    UsernamePrefix(fold, term, b);
    FoldAscii(fold, term);
    if a <= b {
      forall i | 0 <= i < |term| ensures LowerChar(term[i]) == LowerChar(stored[i]) {
        assert a[i] == b[i];
      }
    } else if |a| <= |b| {
      var i :| 0 <= i < |a| && a[i] != b[i];
      assert LowerChar(term[i]) != LowerChar(stored[i]);
    }
  }

  const KELVIN_SIGN := '\U{212A}'

  /** Beyond ASCII that reading fails: the Kelvin sign is lower-cased to "k" and finds every name that
      starts with k, though it is no letter k. */
  lemma {:induction false} KelvinFindsK(fold: Fold, stored: string)
    requires Lowering(fold) && fold(KELVIN_SIGN) == "k"
    ensures Like(FoldAll(fold, Escape([KELVIN_SIGN])) + "%", stored) <==> stored != "" && stored[0] == 'k'
  {
    UsernamePrefix(fold, [KELVIN_SIGN], stored);
    var k := FoldAll(fold, [KELVIN_SIGN]);
    assert [KELVIN_SIGN][1..] == "" && k == "k";
    assert |k| == 1 && k[0] == 'k';
    assert k <= stored <==> stored != "" && stored[0] == k[0];
  }
}
