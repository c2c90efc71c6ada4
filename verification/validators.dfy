/**
 * The custom request validators registered with express-validator
 * (app.js, `customValidators`). The two regular expressions are
 * anchored sequences of bracket expressions with fixed repetition
 * counts, so they are modelled by a matcher for exactly that shape.
 */
module Validators {
  import opened Wrappers

  /** A range `lo-hi` inside a bracket expression; a single character is `c-c`. */
  datatype Span = Span(lo: char, hi: char)

  /** A bracket expression such as `[0-9A-F]`. */
  type CharClass = seq<Span>

  /** A bracket expression repeated exactly `count` times, as in `[0-9A-F]{8}`. */
  datatype Atom = Atom(cls: CharClass, count: nat)

  predicate InClass(c: char, cls: CharClass)
  {
    cls != [] && (cls[0].lo <= c <= cls[0].hi || InClass(c, cls[1..]))
  }

  /** ASCII upper case; JavaScript's case-insensitive matching never maps a non-ASCII character into ASCII. */
  function Upper(c: char): (u: char)
  {
    if 'a' <= c <= 'z' then (c as int - 32) as char else c
  }

  /**
   * Whether `c` matches `cls`. Under the `i` flag a character also
   * matches when its upper-case form does; this is JavaScript's rule for
   * classes that hold no lower-case letter, which is so for every
   * class used with the flag here.
   */
  predicate CharMatches(c: char, cls: CharClass, ignoreCase: bool)
  {
    InClass(c, cls) || (ignoreCase && InClass(Upper(c), cls))
  }

  /** Whether every character of `s` matches `cls`. */
  predicate AllMatch(s: string, cls: CharClass, ignoreCase: bool)
  {
    forall k :: 0 <= k < |s| ==> CharMatches(s[k], cls, ignoreCase)
  }

  /** Whether the whole of `s` matches the anchored pattern `^p$`. */
  predicate Matches(p: seq<Atom>, s: string, ignoreCase: bool)
  {
    if p == [] then s == []
    else
      var n := p[0].count;
      && n <= |s|
      && AllMatch(s[..n], p[0].cls, ignoreCase)
      && Matches(p[1..], s[n..], ignoreCase)
  }

  /** The class each position of a matching string must belong to. */
  function Expand(p: seq<Atom>): (r: seq<CharClass>)
  {
    if p == [] then [] else Repeat(p[0].cls, p[0].count) + Expand(p[1..])
  }

  function Repeat(cls: CharClass, n: nat): (r: seq<CharClass>)
    ensures |r| == n && forall k :: 0 <= k < n ==> r[k] == cls
  {
    seq(n, _ => cls)
  }

  /** A pattern matches exactly the strings whose every character is in the class of its position. */
  lemma {:induction false} MatchesPositionwise(p: seq<Atom>, s: string, ignoreCase: bool)
    ensures Matches(p, s, ignoreCase) <==>
      |s| == |Expand(p)| && forall k :: 0 <= k < |s| ==> CharMatches(s[k], Expand(p)[k], ignoreCase)
  {
    if p != [] {
      var n, e := p[0].count, Expand(p);
      var tail := Expand(p[1..]);
      assert e == Repeat(p[0].cls, n) + tail;
      if n <= |s| {
        MatchesPositionwise(p[1..], s[n..], ignoreCase);
        if |s| == |e| && forall k :: 0 <= k < |s| ==> CharMatches(s[k], e[k], ignoreCase) {
          forall k | 0 <= k < n ensures CharMatches(s[..n][k], p[0].cls, ignoreCase) {
            assert e[k] == p[0].cls;
          }
          forall k | 0 <= k < |s[n..]| ensures CharMatches(s[n..][k], tail[k], ignoreCase) {
            assert e[n + k] == tail[k];
          }
        }
        if Matches(p, s, ignoreCase) {
          forall k | 0 <= k < |s| ensures CharMatches(s[k], e[k], ignoreCase) {
            if k < n {
              assert s[k] == s[..n][k];
            } else {
              assert s[k] == s[n..][k - n];
            }
          }
        }
      }
    }
  }

  // The bracket expressions of the two patterns.
  const Dash: CharClass := [Span('-', '-')]
  const HexUpper: CharClass := [Span('0', '9'), Span('A', 'F')]
  const Four: CharClass := [Span('4', '4')]
  const Variant: CharClass := [Span('8', '8'), Span('9', '9'), Span('A', 'A'), Span('B', 'B')]
  const LowerAlnum: CharClass := [Span('0', '9'), Span('a', 'z')]

  /** `/^[0-9A-F]{8}-[0-9A-F]{4}-[4][0-9A-F]{3}-[89AB][0-9A-F]{3}-[0-9A-F]{12}$/i` */
  const UuidV4Pattern: seq<Atom> := [
    Atom(HexUpper, 8), Atom(Dash, 1), Atom(HexUpper, 4), Atom(Dash, 1),
    Atom(Four, 1), Atom(HexUpper, 3), Atom(Dash, 1),
    Atom(Variant, 1), Atom(HexUpper, 3), Atom(Dash, 1), Atom(HexUpper, 12)]

  /** `/^[0-9a-z]{10}$/` */
  const GameIdPattern: seq<Atom> := [Atom(LowerAlnum, 10)]

  lemma ExpandCons(a: Atom, q: seq<Atom>)
    ensures Expand([a] + q) == Repeat(a.cls, a.count) + Expand(q)
  {
    assert ([a] + q)[1..] == q;
  }

  /** Position by position, the classes of the version-4 UUID pattern. */
  function UuidV4ClassAt(k: nat): (cls: CharClass)
  {
    if k == 8 || k == 13 || k == 18 || k == 23 then Dash
    else if k == 14 then Four
    else if k == 19 then Variant
    else HexUpper
  }

  /** The tail of the pattern after the version digit, run after run. */
  lemma UuidV4TailRuns(t: seq<Atom>)
    requires t == [Atom(HexUpper, 3), Atom(Dash, 1), Atom(Variant, 1), Atom(HexUpper, 3), Atom(Dash, 1), Atom(HexUpper, 12)]
    ensures Expand(t) == Repeat(HexUpper, 3) + [Dash] + [Variant] + Repeat(HexUpper, 3) + [Dash] + Repeat(HexUpper, 12)
  {
    var t5 := [Atom(HexUpper, 12)];
    var t4 := [Atom(Dash, 1)] + t5;
    var t3 := [Atom(HexUpper, 3)] + t4;
    var t2 := [Atom(Variant, 1)] + t3;
    var t1 := [Atom(Dash, 1)] + t2;
    assert t == [Atom(HexUpper, 3)] + t1;
    assert t5 == t5 + [];
    ExpandCons(Atom(HexUpper, 12), []);
    ExpandCons(Atom(Dash, 1), t5);
    ExpandCons(Atom(HexUpper, 3), t4);
    ExpandCons(Atom(Variant, 1), t3);
    ExpandCons(Atom(Dash, 1), t2);
    ExpandCons(Atom(HexUpper, 3), t1);
  }

  /** The pattern expands to the classes of its atoms, run after run. */
  lemma UuidV4Runs()
    ensures Expand(UuidV4Pattern) ==
      Repeat(HexUpper, 8) + [Dash] + Repeat(HexUpper, 4) + [Dash] + [Four]
      + (Repeat(HexUpper, 3) + [Dash] + [Variant] + Repeat(HexUpper, 3) + [Dash] + Repeat(HexUpper, 12))
  {
    var t5 := [Atom(HexUpper, 3), Atom(Dash, 1), Atom(Variant, 1), Atom(HexUpper, 3), Atom(Dash, 1), Atom(HexUpper, 12)];
    var t4 := [Atom(Four, 1)] + t5;
    var t3 := [Atom(Dash, 1)] + t4;
    var t2 := [Atom(HexUpper, 4)] + t3;
    var t1 := [Atom(Dash, 1)] + t2;
    assert UuidV4Pattern == [Atom(HexUpper, 8)] + t1;
    UuidV4TailRuns(t5);
    ExpandCons(Atom(Four, 1), t5);
    ExpandCons(Atom(Dash, 1), t4);
    ExpandCons(Atom(HexUpper, 4), t3);
    ExpandCons(Atom(Dash, 1), t2);
    ExpandCons(Atom(HexUpper, 8), t1);
  }

  lemma UuidV4Positions(e: seq<CharClass>)
    requires e ==
      Repeat(HexUpper, 8) + [Dash] + Repeat(HexUpper, 4) + [Dash] + [Four]
      + (Repeat(HexUpper, 3) + [Dash] + [Variant] + Repeat(HexUpper, 3) + [Dash] + Repeat(HexUpper, 12))
    ensures |e| == 36 && forall k :: 0 <= k < 36 ==> e[k] == UuidV4ClassAt(k)
  {
  }

  lemma InCons(c: char, a: Span, rest: CharClass)
    ensures InClass(c, [a] + rest) <==> a.lo <= c <= a.hi || InClass(c, rest)
  {
    assert ([a] + rest)[1..] == rest;
  }

  /** The membership test each bracket expression stands for. */
  lemma InSpans(c: char)
    ensures InClass(c, HexUpper) <==> '0' <= c <= '9' || 'A' <= c <= 'F'
    ensures InClass(c, LowerAlnum) <==> '0' <= c <= '9' || 'a' <= c <= 'z'
    ensures InClass(c, Dash) <==> c == '-'
    ensures InClass(c, Four) <==> c == '4'
    ensures InClass(c, Variant) <==> (c == '8' || c == '9' || c == 'A' || c == 'B')
  {
    InCons(c, Span('0', '9'), [Span('A', 'F')]);
    InCons(c, Span('A', 'F'), []);
    InCons(c, Span('0', '9'), [Span('a', 'z')]);
    InCons(c, Span('a', 'z'), []);
    InCons(c, Span('-', '-'), []);
    InCons(c, Span('4', '4'), []);
    InCons(c, Span('8', '8'), [Span('9', '9'), Span('A', 'A'), Span('B', 'B')]);
    InCons(c, Span('9', '9'), [Span('A', 'A'), Span('B', 'B')]);
    InCons(c, Span('A', 'A'), [Span('B', 'B')]);
    InCons(c, Span('B', 'B'), []);
  }

  /** A hexadecimal digit in either case. */
  predicate IsHexDigit(c: char)
  {
    '0' <= c <= '9' || 'a' <= c <= 'f' || 'A' <= c <= 'F'
  }

  // What each class accepts under the flags its pattern is used with.

  lemma HexMeaning(c: char)
    ensures CharMatches(c, HexUpper, true) <==> IsHexDigit(c)
  {
    InSpans(c);
    InSpans(Upper(c));
  }

  lemma DashMeaning(c: char)
    ensures CharMatches(c, Dash, true) <==> c == '-'
  {
    InSpans(c);
    InSpans(Upper(c));
  }

  lemma FourMeaning(c: char)
    ensures CharMatches(c, Four, true) <==> c == '4'
  {
    InSpans(c);
    InSpans(Upper(c));
  }

  lemma VariantMeaning(c: char)
    ensures CharMatches(c, Variant, true) <==> (c == '8' || c == '9' || c == 'a' || c == 'b' || c == 'A' || c == 'B')
  {
    InSpans(c);
    InSpans(Upper(c));
  }

  lemma LowerAlnumMeaning(c: char)
    ensures CharMatches(c, LowerAlnum, false) <==> '0' <= c <= '9' || 'a' <= c <= 'z'
  {
    InSpans(c);
  }

  /**
   * The layout of a version-4 UUID (RFC 4122, section 4.1.3 and 4.4):
   * 36 characters, hyphens at 8, 13, 18 and 23, the version digit 4 at
   * 14, a variant digit 8, 9, a or b at 19 and hexadecimal digits
   * elsewhere, letters in either case.
   */
  predicate UuidV4Shape(s: string)
  {
    |s| == 36 && forall k :: 0 <= k < 36 ==> UuidV4CharAt(s[k], k)
  }

  /** The character a version-4 UUID may hold at position k. */
  predicate UuidV4CharAt(c: char, k: nat)
  {
    if k == 8 || k == 13 || k == 18 || k == 23 then c == '-'
    else if k == 14 then c == '4'
    else if k == 19 then (c == '8' || c == '9' || c == 'a' || c == 'b' || c == 'A' || c == 'B')
    else IsHexDigit(c)
  }

  /** `isColor`: a colour is exactly "w" or "b"; undefined is not one. */
  function IsColor(v: Option<string>): (r: bool)
  {
    v.Some? && (v.value == "w" || v.value == "b")
  }

  /** `isUuidV4`: the value is defined and matches the version-4 UUID pattern, ignoring case. */
  function IsUuidV4(v: Option<string>): (r: bool)
  {
    && v.Some?
    && Matches(UuidV4Pattern, v.value, true)
  }

  /** `isGameId`: the value is defined and is ten lower-case letters or digits. */
  function IsGameId(v: Option<string>): (r: bool)
  {
    && v.Some?
    && Matches(GameIdPattern, v.value, false)
  }

  /** A colour is a one-character string holding 'w' or 'b'. */
  lemma ColorLayout(s: string)
    ensures IsColor(Some(s)) <==> |s| == 1 && s[0] in "wb"
    ensures !IsColor(None)
  {
    if |s| == 1 && s[0] in "wb" {
      assert s == [s[0]];
    }
  }

  lemma UuidV4ClassMeaning(c: char, k: nat)
    ensures CharMatches(c, UuidV4ClassAt(k), true) <==> UuidV4CharAt(c, k)
  {
    if k == 8 || k == 13 || k == 18 || k == 23 {
      DashMeaning(c);
    } else if k == 14 {
      FourMeaning(c);
    } else if k == 19 {
      VariantMeaning(c);
    } else {
      HexMeaning(c);
    }
  }

  /** `isUuidV4` accepts exactly the strings laid out as a version-4 UUID. */
  lemma UuidV4Layout(s: string)
    ensures IsUuidV4(Some(s)) <==> UuidV4Shape(s)
    ensures !IsUuidV4(None)
  {
    MatchesPositionwise(UuidV4Pattern, s, true);
    UuidV4Runs();
    var e := Expand(UuidV4Pattern);
    UuidV4Positions(e);
    if UuidV4Shape(s) {
      forall k | 0 <= k < |s| ensures CharMatches(s[k], e[k], true) {
        UuidV4ClassMeaning(s[k], k);
      }
    }
    if IsUuidV4(Some(s)) {
      forall k | 0 <= k < 36 ensures UuidV4CharAt(s[k], k) {
        UuidV4ClassMeaning(s[k], k);
      }
    }
  }

  /** `isGameId` accepts exactly the ten-character strings over 0-9 and a-z. */
  lemma GameIdLayout(s: string)
    ensures IsGameId(Some(s)) <==> |s| == 10 && forall k :: 0 <= k < 10 ==> '0' <= s[k] <= '9' || 'a' <= s[k] <= 'z'
    ensures !IsGameId(None)
  {
    MatchesPositionwise(GameIdPattern, s, false);
    assert Expand(GameIdPattern) == Repeat(LowerAlnum, 10);
    forall k | 0 <= k < |s| {
      LowerAlnumMeaning(s[k]);
    }
  }
}
