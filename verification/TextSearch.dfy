/**
 The case-insensitive LIKE the text filters use, and when wrapping a text in wildcards
 searches for it as a substring.
 */
module TextSearch {

  predicate Special(c: char) {
    c == '%' || c == '_' || c == '\\'
  }

  predicate Plain(s: string) {
    forall i | 0 <= i < |s| :: !Special(s[i])
  }

  /**
   A case folding, which is up to the locale of the database: it folds a character at a time,
   folding twice changes nothing more, and the special characters are left alone.
   */
  ghost predicate IsFold(fold: char -> char) {
    forall c :: fold(fold(c)) == fold(c) && (Special(c) ==> fold(c) == c) && (Special(fold(c)) ==> Special(c))
  }

  function Folded(fold: char -> char, s: string): (r: string)
    ensures |r| == |s| && forall i | 0 <= i < |s| :: r[i] == fold(s[i])
  {
    seq(|s|, i requires 0 <= i < |s| => fold(s[i]))
  }

  /** The folding of the C locale. */
  function LowerAscii(c: char): char {
    if 'A' <= c <= 'Z' then (c as int - 'A' as int + 'a' as int) as char else c
  }

  /** LIKE: `%` is any text, `_` any character, `\` takes the next character as it is. */
  predicate Like(pattern: string, text: string)
    decreases |pattern| + |text|
  {
    if pattern == "" then text == ""
    else match pattern[0]
      case '%' => Like(pattern[1..], text) || (text != "" && Like(pattern, text[1..]))
      case '_' => text != "" && Like(pattern[1..], text[1..])
      case '\\' => |pattern| > 1 && text != "" && text[0] == pattern[1] && Like(pattern[2..], text[1..])
      case c => text != "" && text[0] == c && Like(pattern[1..], text[1..])
  }

  predicate ILike(fold: char -> char, pattern: string, text: string) {
    Like(Folded(fold, pattern), Folded(fold, text))
  }

  /** The pattern a filter binds for a text. */
  function Anywhere(s: string): string {
    "%" + s + "%"
  }

  ghost predicate Occurs(s: string, text: string) {
    exists i | 0 <= i <= |text| :: s <= text[i..]
  }

  lemma {:induction false} LikeAnySuffix(rest: string, text: string)
    ensures Like("%" + rest, text) <==> exists i | 0 <= i <= |text| :: Like(rest, text[i..])
    decreases |text|
  {
    var p := "%" + rest;
    assert p[1..] == rest && text[0..] == text;
    if text == "" {
      assert forall i | 0 <= i <= |text| :: text[i..] == text;
    } else {
      LikeAnySuffix(rest, text[1..]);
      forall i | 0 <= i < |text|
        ensures text[1..][i..] == text[i + 1..]
      {}
      if i :| 0 <= i <= |text| && Like(rest, text[i..]) {
        if i > 0 {
          assert text[1..][i - 1..] == text[i..];
        }
      }
      if Like(p, text[1..]) {
        var i :| 0 <= i <= |text[1..]| && Like(rest, text[1..][i..]);
        assert Like(rest, text[i + 1..]);
      }
    }
  }

  lemma AnyMatchesAll(text: string)
    ensures Like("%", text)
  {
    LikeAnySuffix("", text);
    assert "%" + "" == "%";
    assert Like("", text[|text|..]);
  }

  lemma {:induction false} PlainIsPrefix(s: string, text: string)
    requires Plain(s)
    ensures Like(s + "%", text) <==> s <= text
  {
    if s == "" {
      assert s + "%" == "%";
      AnyMatchesAll(text);
    } else {
      assert (s + "%")[1..] == s[1..] + "%" && (s + "%")[0] == s[0];
      if text != "" {
        PlainIsPrefix(s[1..], text[1..]);
        assert s <= text <==> s[0] == text[0] && s[1..] <= text[1..];
      }
    }
  }

  lemma PlainOccurs(s: string, text: string)
    requires Plain(s)
    ensures Like(Anywhere(s), text) <==> Occurs(s, text)
  {
    assert Anywhere(s) == "%" + (s + "%");
    LikeAnySuffix(s + "%", text);
    forall i | 0 <= i <= |text|
      ensures Like(s + "%", text[i..]) <==> s <= text[i..]
    {
      PlainIsPrefix(s, text[i..]);
    }
  }

  /** A text the wildcard reading of s, followed by `%`, accepts; `other` is any character. */
  function Misread(s: string, other: char): string {
    if s == "" then ""
    else match s[0]
      case '%' => Misread(s[1..], other)
      case '_' => [other] + Misread(s[1..], other)
      case '\\' => if |s| == 1 then "%" else [s[1]] + Misread(s[2..], other)
      case c => [c] + Misread(s[1..], other)
  }

  predicate Fixes(fold: char -> char, s: string) {
    forall i | 0 <= i < |s| :: fold(s[i]) == s[i]
  }

  lemma {:induction false} MisreadAccepted(s: string, other: char)
    requires !Special(other)
    ensures Like(s + "%", Misread(s, other))
    ensures |Misread(s, other)| <= |s|
    ensures !Plain(s) ==> Misread(s, other) != s
  {
    var p := s + "%";
    if s == "" {
      AnyMatchesAll("");
      assert p == "%";
    } else if s[0] == '\\' && |s| == 1 {
      assert p[2..] == "" && p[1] == '%';
    } else {
      var skip := if s[0] == '\\' then 2 else 1;
      var rest := s[skip..];
      assert p[skip..] == rest + "%" && p[0] == s[0];
      MisreadAccepted(rest, other);
      var m := Misread(s, other);
      if s[0] == '%' {
        assert m == Misread(rest, other);
      } else {
        assert m[1..] == Misread(rest, other);
      }
      if !Plain(s) && !Special(s[0]) {
        assert !Plain(rest) by {
          var i :| 0 <= i < |s| && Special(s[i]);
          assert rest[i - 1] == s[i];
        }
        assert s[1..] == rest;
      }
    }
  }

  lemma {:induction false} MisreadFixed(fold: char -> char, s: string, other: char)
    requires IsFold(fold) && Fixes(fold, s) && fold(other) == other
    ensures Fixes(fold, Misread(s, other))
  {
    if s == "" {
    } else if s[0] == '\\' && |s| == 1 {
    } else {
      MisreadFixed(fold, s[if s[0] == '\\' then 2 else 1..], other);
    }
  }

  lemma FoldedPlain(fold: char -> char, s: string)
    requires IsFold(fold)
    ensures Plain(Folded(fold, s)) <==> Plain(s)
    ensures Fixes(fold, Folded(fold, s))
    ensures Folded(fold, Anywhere(s)) == Anywhere(Folded(fold, s))
  {
    forall i | 0 <= i < |s|
      ensures Special(Folded(fold, s)[i]) <==> Special(s[i])
    {}
    assert Special('%');
  }

  lemma FixedFolded(fold: char -> char, s: string)
    requires Fixes(fold, s)
    ensures Folded(fold, s) == s
  {}

  /** A text with a special character is misread: some text is found that it does not occur in. */
  lemma SpecialFindsMore(fold: char -> char, s: string) returns (text: string)
    requires IsFold(fold) && !Plain(s)
    ensures ILike(fold, Anywhere(s), text) && !Occurs(Folded(fold, s), Folded(fold, text))
  {
    var l, other := Folded(fold, s), fold('x');
    FoldedPlain(fold, s);
    text := Misread(l, other);
    MisreadAccepted(l, other);
    MisreadFixed(fold, l, other);
    FixedFolded(fold, text);
    assert Anywhere(l) == "%" + (l + "%");
    LikeAnySuffix(l + "%", text);
    assert text[0..] == text;
  }

  /**
   Wrapping s in `%` finds, in every text, exactly the texts s occurs in without regard
   to case, if and only if s holds none of `%`, `_` and `\`.
   */
  lemma SubstringSearchIffPlain(fold: char -> char, s: string)
    requires IsFold(fold)
    ensures (forall text :: ILike(fold, Anywhere(s), text) <==> Occurs(Folded(fold, s), Folded(fold, text))) <==> Plain(s)
  {
    FoldedPlain(fold, s);
    if Plain(s) {
      forall text: string
        ensures ILike(fold, Anywhere(s), text) <==> Occurs(Folded(fold, s), Folded(fold, text))
      {
        PlainOccurs(Folded(fold, s), Folded(fold, text));
      }
    } else {
      var text := SpecialFindsMore(fold, s);
    }
  }

  // ---- two inputs ----

  lemma AsciiFolds()
    ensures IsFold(LowerAscii)
  {}

  lemma PercentAtTheEnd(text: string)
    ensures Like("50%%", "50" + text)
  {
    assert "%%" == "%" + "%" && text[0..] == text;
    AnyMatchesAll(text);
    LikeAnySuffix("%", text);
    assert "50%%"[1..] == "0%%" && "0%%"[1..] == "%%";
    assert ("50" + text)[1..] == "0" + text && ("0" + text)[1..] == text;
  }

  /** Searching for `50%` finds a text with no `50%` in it. */
  lemma PercentFindsMore()
    ensures ILike(LowerAscii, Anywhere("50%"), "500") && !Occurs("50%", "500")
  {
    assert Folded(LowerAscii, Anywhere("50%")) == "%" + "50%%" && Folded(LowerAscii, "500") == "500";
    PercentAtTheEnd("0");
    assert "50" + "0" == "500" && "500"[0..] == "500";
    LikeAnySuffix("50%%", "500");
  }

  /** Searching for `a\b` does not find the text `a\b` itself. */
  lemma BackslashFindsLess()
    ensures !ILike(LowerAscii, Anywhere("a\\b"), "a\\b") && Occurs("a\\b", "a\\b")
  {
    var s := "a\\b";
    assert Folded(LowerAscii, Anywhere(s)) == "%a\\b%" && Folded(LowerAscii, s) == s;
    assert "%a\\b%" == "%" + "a\\b%";
    LikeAnySuffix("a\\b%", s);
    assert "a\\b%"[1..] == "\\b%";
    forall i | 0 <= i <= |s|
      ensures !Like("a\\b%", s[i..])
    {
      if i == 0 {
        assert s[0..] == s && s[1..] == "\\b";
        assert "\\b%"[1] == 'b';
      }
    }
    assert s[0..] == s;
  }
}
