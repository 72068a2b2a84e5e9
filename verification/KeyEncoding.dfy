/**
 The composite keys of the idempotency records: each part percent-escaped as a path
 segment (section 2.1 of RFC 3986), the parts joined with slashes. A Go string is a
 sequence of bytes, here of characters below 256; no other character occurs in one.
 */
module KeyEncoding {
  import opened Outcomes
  import opened Numerals

  /** What url.PathEscape leaves as it is. */
  predicate Unescaped(c: char) {
    || 'a' <= c <= 'z' || 'A' <= c <= 'Z' || '0' <= c <= '9'
    || c in "-_.~$&+:=@"
  }

  function UpperHex(d: nat): char
    requires d < 16
  {
    "0123456789ABCDEF"[d]
  }

  function EscapeByte(c: char): string {
    if Unescaped(c) || c as int >= 256 then [c] else ['%', UpperHex(c as int / 16), UpperHex(c as int % 16)]
  }

  function PathEscape(s: string): (r: string)
    ensures '/' !in r
  {
    if s == "" then "" else EscapeByte(s[0]) + PathEscape(s[1..])
  }

  /** Reads an escaped segment back; any other text is refused. */
  function PathUnescape(s: string): Option<string> {
    if s == "" then Some("")
    else if s[0] != '%' then
      var rest :- PathUnescape(s[1..]);
      Some([s[0]] + rest)
    else if |s| >= 3 && DigitOf(s[1]).Some? && DigitOf(s[2]).Some? then
      var rest :- PathUnescape(s[3..]);
      Some([(DigitOf(s[1]).value * 16 + DigitOf(s[2]).value) as char] + rest)
    else None
  }

  lemma UpperHexDigit(d: nat)
    requires d < 16
    ensures DigitOf(UpperHex(d)) == Some(d)
  {}

  lemma UnescapeByte(c: char, rest: string)
    ensures PathUnescape(EscapeByte(c) + rest)
         == if PathUnescape(rest).Some? then Some([c] + PathUnescape(rest).value) else None
  {
    var s := EscapeByte(c) + rest;
    if Unescaped(c) || c as int >= 256 {
      assert s[1..] == rest;
    } else {
      UpperHexDigit(c as int / 16);
      UpperHexDigit(c as int % 16);
      assert s[3..] == rest;
    }
  }

  lemma {:induction false} EscapeRoundTrip(s: string)
    ensures PathUnescape(PathEscape(s)) == Some(s)
  {
    if s == "" {
    } else {
      EscapeRoundTrip(s[1..]);
      UnescapeByte(s[0], PathEscape(s[1..]));
      assert s == [s[0]] + s[1..];
    }
  }

  /** Strings.Join with a slash. */
  function JoinSlash(parts: seq<string>): string {
    if parts == [] then ""
    else if |parts| == 1 then parts[0]
    else parts[0] + "/" + JoinSlash(parts[1..])
  }

  function EscapeAll(parts: seq<string>): (r: seq<string>)
    ensures |r| == |parts| && forall i | 0 <= i < |r| :: r[i] == PathEscape(parts[i])
  {
    seq(|parts|, i requires 0 <= i < |parts| => PathEscape(parts[i]))
  }

  function Join(parts: seq<string>): string {
    JoinSlash(EscapeAll(parts))
  }

  function BeforeSlash(s: string): string {
    if s == "" || s[0] == '/' then "" else [s[0]] + BeforeSlash(s[1..])
  }

  lemma {:induction false} BeforeSlashStops(s: string, rest: string)
    requires '/' !in s && (rest == "" || rest[0] == '/')
    ensures BeforeSlash(s + rest) == s
  {
    if s == "" {
      assert s + rest == rest;
    } else {
      assert (s + rest)[1..] == s[1..] + rest;
      BeforeSlashStops(s[1..], rest);
      assert s == [s[0]] + s[1..];
    }
  }

  /** The first part of a joined text and what follows it. */
  lemma FirstPart(parts: seq<string>) returns (rest: string)
    requires parts != [] && forall p | p in parts :: '/' !in p
    ensures BeforeSlash(JoinSlash(parts)) == parts[0]
    ensures JoinSlash(parts) == parts[0] + rest
    ensures |parts| == 1 ==> rest == ""
    ensures |parts| > 1 ==> rest == "/" + JoinSlash(parts[1..])
  {
    rest := if |parts| == 1 then "" else "/" + JoinSlash(parts[1..]);
    assert JoinSlash(parts) == parts[0] + rest;
    assert parts[0] in parts;
    BeforeSlashStops(parts[0], rest);
  }

  lemma {:induction false} JoinSlashInjective(a: seq<string>, b: seq<string>)
    requires a != [] && b != [] && (forall p | p in a :: '/' !in p) && forall p | p in b :: '/' !in p
    requires JoinSlash(a) == JoinSlash(b)
    ensures a == b
  {
    var restA := FirstPart(a);
    var restB := FirstPart(b);
    assert restA == JoinSlash(a)[|a[0]|..] && restB == JoinSlash(b)[|b[0]|..];
    assert restA == restB;
    if |a| == 1 || |b| == 1 {
    } else {
      assert JoinSlash(a[1..]) == restA[1..] && JoinSlash(b[1..]) == restB[1..];
      JoinSlashInjective(a[1..], b[1..]);
      assert a == [a[0]] + a[1..] && b == [b[0]] + b[1..];
    }
  }

  lemma EscapeAllInjective(a: seq<string>, b: seq<string>)
    requires EscapeAll(a) == EscapeAll(b)
    ensures a == b
  {
    assert |a| == |EscapeAll(a)| == |b|;
    forall i | 0 <= i < |a|
      ensures a[i] == b[i]
    {
      assert EscapeAll(a)[i] == EscapeAll(b)[i];
      EscapeRoundTrip(a[i]);
      EscapeRoundTrip(b[i]);
    }
  }

  /**
   Two lists of parts make one key exactly when they are the same list, but for the list of
   no part and the list of one empty part, which both make the empty key.
   */
  lemma JoinInjective(a: seq<string>, b: seq<string>)
    ensures Join(a) == Join(b) <==> a == b || {a, b} == {[], [""]}
  {
    assert EscapeAll([""]) == [""];
    if Join(a) == Join(b) && a != [] && b != [] {
      assert forall p | p in EscapeAll(a) :: '/' !in p;
      assert forall p | p in EscapeAll(b) :: '/' !in p;
      JoinSlashInjective(EscapeAll(a), EscapeAll(b));
      EscapeAllInjective(a, b);
    } else if Join(a) == Join(b) {
      if a == [] && b != [] {
        OnlyEmptyPart(b);
      } else if b == [] && a != [] {
        OnlyEmptyPart(a);
      }
    }
  }

  lemma OnlyEmptyPart(a: seq<string>)
    requires a != [] && Join(a) == ""
    ensures a == [""]
  {
    assert forall p | p in EscapeAll(a) :: '/' !in p;
    JoinSlashInjective(EscapeAll(a), [""]);
    assert EscapeAll([""]) == [""];
    EscapeAllInjective(a, [""]);
  }

  /** Overwrites every part with its escaped form, as the variadic slice is, and joins them. */
  method JoinParts(parts: array<string>) returns (key: string)
    modifies parts
    ensures parts[..] == EscapeAll(old(parts[..]))
    ensures key == Join(old(parts[..]))
  {
    for i := 0 to parts.Length
      invariant forall j | 0 <= j < i :: parts[j] == PathEscape(old(parts[j]))
      invariant forall j | i <= j < parts.Length :: parts[j] == old(parts[j])
    {
      parts[i] := PathEscape(parts[i]);
    }
    assert parts[..] == EscapeAll(old(parts[..]));
    key := JoinSlash(parts[..]);
  }

  // ---- the two kinds of key ----

  /** The owner of an HTTP key: the subject of the principal, if it has one. */
  function Owner(principal: Option<string>): string {
    if principal.Some? && principal.value != "" then principal.value else "anonymous"
  }

  function HttpKey(pattern: string, principal: Option<string>, header: string): string {
    Join(["http", pattern, Owner(principal), header])
  }

  function BrokerKey(group: string, source: string, id: string): string {
    Join(["broker", group, source, id])
  }

  predicate ActsAnonymous(principal: Option<string>) {
    principal in {None, Some(""), Some("anonymous")}
  }

  lemma JoinFour(x0: string, x1: string, x2: string, x3: string, y0: string, y1: string, y2: string, y3: string)
    ensures Join([x0, x1, x2, x3]) == Join([y0, y1, y2, y3]) <==> x0 == y0 && x1 == y1 && x2 == y2 && x3 == y3
  {
    var a, b := [x0, x1, x2, x3], [y0, y1, y2, y3];
    JoinInjective(a, b);
    assert |a| == 4 && |b| == 4;
    assert a[0] == x0 && a[1] == x1 && a[2] == x2 && a[3] == x3;
    assert b[0] == y0 && b[1] == y1 && b[2] == y2 && b[3] == y3;
  }

  /**
   Two requests share a key exactly when route and header agree and so do the callers. The
   callers that do not count as different are those without a principal, with an empty
   subject, or with the very subject "anonymous".
   */
  lemma HttpKeysShared(pattern1: string, caller1: Option<string>, header1: string,
                       pattern2: string, caller2: Option<string>, header2: string)
    ensures HttpKey(pattern1, caller1, header1) == HttpKey(pattern2, caller2, header2)
       <==> pattern1 == pattern2 && header1 == header2
            && (caller1 == caller2 || (ActsAnonymous(caller1) && ActsAnonymous(caller2)))
  {
    JoinFour("http", pattern1, Owner(caller1), header1, "http", pattern2, Owner(caller2), header2);
  }

  /** A principal named "anonymous" and a caller without a principal share a key. */
  lemma AnonymousSharesAKey()
    ensures HttpKey("POST /products", Some("anonymous"), "k1") == HttpKey("POST /products", None, "k1")
  {
    HttpKeysShared("POST /products", Some("anonymous"), "k1", "POST /products", None, "k1");
  }

  lemma BrokerKeysShared(group1: string, source1: string, id1: string, group2: string, source2: string, id2: string)
    ensures BrokerKey(group1, source1, id1) == BrokerKey(group2, source2, id2)
       <==> group1 == group2 && source1 == source2 && id1 == id2
  {
    JoinFour("broker", group1, source1, id1, "broker", group2, source2, id2);
  }

  /** The requests and the messages never meet in one record. */
  lemma HttpKeyIsNoBrokerKey(pattern: string, principal: Option<string>, header: string,
                             group: string, source: string, id: string)
    ensures HttpKey(pattern, principal, header) != BrokerKey(group, source, id)
  {
    JoinFour("http", pattern, Owner(principal), header, "broker", group, source, id);
  }

  // ---- keys in full ----

  lemma OneByteEscaped(c: char)
    ensures PathEscape([c]) == EscapeByte(c)
  {
    assert [c][1..] == "" && PathEscape([c]) == EscapeByte(c) + PathEscape("");
  }

  /** Unreserved characters (section 2.3 of RFC 3986) stay, and the ones that would split or end a path do not. */
  lemma WhatIsEscaped(c: char)
    ensures 'a' <= c <= 'z' || 'A' <= c <= 'Z' || '0' <= c <= '9' || c in "-._~" ==> PathEscape([c]) == [c]
    ensures c in "/%?#;, " ==> PathEscape([c]) == ['%', UpperHex(c as int / 16), UpperHex(c as int % 16)]
  {
    OneByteEscaped(c);
  }

  lemma FourSlashes(a: string, b: string, c: string, d: string)
    ensures JoinSlash([a, b, c, d]) == a + "/" + (b + "/" + (c + "/" + d))
  {
    assert JoinSlash([d]) == d;
    assert [c, d][1..] == [d];
    assert JoinSlash([c, d]) == c + "/" + d;
    assert [b, c, d][1..] == [c, d];
    assert JoinSlash([b, c, d]) == b + "/" + (c + "/" + d);
    assert [a, b, c, d][1..] == [b, c, d];
  }

  lemma {:induction false} PlainPart(s: string)
    requires forall c | c in s :: Unescaped(c)
    ensures PathEscape(s) == s
  {
    if s == "" {
    } else {
      PlainPart(s[1..]);
      assert s == [s[0]] + s[1..] && s[0] in s;
    }
  }

  lemma {:induction false} EscapeJoins(a: string, b: string)
    ensures PathEscape(a + b) == PathEscape(a) + PathEscape(b)
  {
    if a == "" {
      assert a + b == b;
    } else {
      assert (a + b)[1..] == a[1..] + b;
      EscapeJoins(a[1..], b);
      assert EscapeByte(a[0]) + (PathEscape(a[1..]) + PathEscape(b)) == EscapeByte(a[0]) + PathEscape(a[1..]) + PathEscape(b);
    }
  }

  /** A byte to escape between two parts with none. */
  lemma OneEscaped(a: string, c: char, b: string)
    requires (forall x | x in a :: Unescaped(x)) && (forall x | x in b :: Unescaped(x)) && c as int < 256 && !Unescaped(c)
    ensures PathEscape(a + ([c] + b)) == a + (['%', UpperHex(c as int / 16), UpperHex(c as int % 16)] + b)
  {
    PlainPart(a);
    PlainPart(b);
    EscapeJoins([c], b);
    EscapeJoins(a, [c] + b);
    assert [c][1..] == "" && PathEscape([c]) == EscapeByte(c) + PathEscape("");
  }

  lemma FourParts(a: string, b: string, c: string, d: string)
    requires forall x | x in a :: Unescaped(x)
    ensures Join([a, b, c, d]) == a + "/" + (PathEscape(b) + "/" + (PathEscape(c) + "/" + PathEscape(d)))
  {
    PlainPart(a);
    assert EscapeAll([a, b, c, d]) == [a, PathEscape(b), PathEscape(c), PathEscape(d)];
    FourSlashes(a, PathEscape(b), PathEscape(c), PathEscape(d));
  }

  /** The key of a request in full: the kind, the route, the owner and the header, between slashes. */
  lemma HttpKeyInFull(pattern: string, principal: Option<string>, header: string)
    ensures var owner := if principal in {None, Some("")} then "anonymous" else principal.value;
            HttpKey(pattern, principal, header)
            == "http" + "/" + (PathEscape(pattern) + "/" + (PathEscape(owner) + "/" + PathEscape(header)))
  {
    FourParts("http", pattern, Owner(principal), header);
  }

  /** The key of a delivery in full. */
  lemma BrokerKeyInFull(group: string, source: string, id: string)
    ensures BrokerKey(group, source, id) == "broker" + "/" + (PathEscape(group) + "/" + (PathEscape(source) + "/" + PathEscape(id)))
  {
    FourParts("broker", group, source, id);
  }
}
