/**
 * String helpers with the semantics of the Python built-ins the modelled code
 * uses: `str.split(sep)`, `sep.join`, `in` on strings, ASCII `lower`/`upper`,
 * `strip()`, `lstrip(c)`, `str(n)` for naturals and string comparison.
 */
module Text {

  // ---------------------------------------------------------------------------
  // split and join on a one-character separator

  /** Python `s.split(sep)`: never empty, pieces never contain `sep`. */
  function Split(s: string, sep: char): (r: seq<string>)
    ensures |r| >= 1
    ensures forall i :: 0 <= i < |r| ==> sep !in r[i]
  {
    if s == [] then [""]
    else
      var rest := Split(s[1..], sep);
      if s[0] == sep then [""] + rest
      else [[s[0]] + rest[0]] + rest[1..]
  }

  /** Python `sep.join(parts)`. */
  function Join(parts: seq<string>, sep: char): string
  {
    if |parts| == 0 then ""
    else if |parts| == 1 then parts[0]
    else parts[0] + [sep] + Join(parts[1..], sep)
  }

  lemma JoinCons(p: string, rest: seq<string>, sep: char)
    requires |rest| >= 1
    ensures Join([p] + rest, sep) == p + [sep] + Join(rest, sep)
  {
    assert ([p] + rest)[1..] == rest;
  }

  /** A piece free of the separator splits to itself, and the rest splits after it. */
  lemma {:induction false} SplitPrefix(a: string, t: string, sep: char)
    requires sep !in a
    ensures Split(a + t, sep) == [a + Split(t, sep)[0]] + Split(t, sep)[1..]
  {
    if a != [] {
      assert (a + t)[1..] == a[1..] + t;
      SplitPrefix(a[1..], t, sep);
      assert [a[0]] + (a[1..] + Split(t, sep)[0]) == a + Split(t, sep)[0];
    } else {
      assert a + t == t;
      assert a + Split(t, sep)[0] == Split(t, sep)[0];
      assert Split(t, sep) == [Split(t, sep)[0]] + Split(t, sep)[1..];
    }
  }

  lemma SplitNoSep(a: string, sep: char)
    requires sep !in a
    ensures Split(a, sep) == [a]
  {
    SplitPrefix(a, "", sep);
    assert a + "" == a;
  }

  /** Joining the pieces of a split gives the string back. */
  lemma {:induction false} JoinSplit(s: string, sep: char)
    ensures Join(Split(s, sep), sep) == s
  {
    if s != [] {
      JoinSplit(s[1..], sep);
      var rest := Split(s[1..], sep);
      if s[0] == sep {
        assert Split(s, sep) == [""] + rest;
        assert ([""] + rest)[1..] == rest;
      } else {
        var r := Split(s, sep);
        assert r == [[s[0]] + rest[0]] + rest[1..];
        if |rest| == 1 {
          assert r == [[s[0]] + rest[0]];
          assert s == [s[0]] + s[1..];
        } else {
          assert r[1..] == rest[1..];
          assert Join(rest, sep) == rest[0] + [sep] + Join(rest[1..], sep);
          assert s == [s[0]] + s[1..];
        }
      }
    }
  }

  /** Splitting a join of separator-free pieces gives the pieces back. */
  lemma {:induction false} SplitJoin(parts: seq<string>, sep: char)
    requires |parts| >= 1
    requires forall i :: 0 <= i < |parts| ==> sep !in parts[i]
    ensures Split(Join(parts, sep), sep) == parts
  {
    if |parts| == 1 {
      SplitNoSep(parts[0], sep);
    } else {
      SplitJoin(parts[1..], sep);
      var t := [sep] + Join(parts[1..], sep);
      assert Join(parts, sep) == parts[0] + t;
      SplitPrefix(parts[0], t, sep);
      assert t[1..] == Join(parts[1..], sep);
      assert Split(t, sep) == [""] + parts[1..];
      assert Split(t, sep)[0] == "" && Split(t, sep)[1..] == parts[1..];
      assert parts[0] + "" == parts[0];
      assert parts == [parts[0]] + parts[1..];
    }
  }

  /** Python `[x for x in pieces if x]`. */
  function NonEmpty(pieces: seq<string>): (r: seq<string>)
    ensures forall i :: 0 <= i < |r| ==> r[i] != ""
    ensures forall x :: x in r <==> x in pieces && x != ""
  {
    if pieces == [] then []
    else (if pieces[0] == "" then [] else [pieces[0]]) + NonEmpty(pieces[1..])
  }

  /**
   * The filter works piece by piece: on a concatenation it is the
   * concatenation of the filtered parts, so the kept pieces stay in order
   * and repeated pieces are all kept.
   */
  lemma {:induction false} NonEmptyAppend(a: seq<string>, b: seq<string>)
    ensures NonEmpty(a + b) == NonEmpty(a) + NonEmpty(b)
    ensures NonEmpty([]) == [] && NonEmpty([""]) == []
    ensures forall x :: x != "" ==> NonEmpty([x]) == [x]
  {
    assert [""][1..] == [];
    forall x | x != "" ensures NonEmpty([x]) == [x] {
      assert [x][1..] == [];
    }
    if a != [] {
      assert (a + b)[1..] == a[1..] + b;
      NonEmptyAppend(a[1..], b);
    } else {
      assert a + b == b;
    }
  }

  // ---------------------------------------------------------------------------
  // ASCII case mapping

  function LowerChar(c: char): char
  {
    if 'A' <= c <= 'Z' then (c as int + 32) as char else c
  }

  function UpperChar(c: char): char
  {
    if 'a' <= c <= 'z' then (c as int - 32) as char else c
  }

  /** `str.lower()` restricted to ASCII letters. */
  function Lower(s: string): (r: string)
    ensures |r| == |s|
    ensures forall i :: 0 <= i < |s| ==> r[i] == LowerChar(s[i])
    ensures forall i :: 0 <= i < |s| ==> !('A' <= r[i] <= 'Z')
  {
    seq(|s|, i requires 0 <= i < |s| => LowerChar(s[i]))
  }

  /** `str.upper()` restricted to ASCII letters. */
  function Upper(s: string): (r: string)
    ensures |r| == |s|
    ensures forall i :: 0 <= i < |s| ==> r[i] == UpperChar(s[i])
    ensures forall i :: 0 <= i < |s| ==> !('a' <= r[i] <= 'z')
  {
    seq(|s|, i requires 0 <= i < |s| => UpperChar(s[i]))
  }

  // ---------------------------------------------------------------------------
  // substring test (Python `needle in hay`)

  predicate OccursAt(hay: string, needle: string, k: int)
  {
    0 <= k && k + |needle| <= |hay| && hay[k..k + |needle|] == needle
  }

  function Contains(hay: string, needle: string): (b: bool)
    ensures b <==> exists k :: OccursAt(hay, needle, k)
  {
    if needle <= hay then
      assert OccursAt(hay, needle, 0);
      true
    else if hay == [] then
      assert forall k :: !OccursAt(hay, needle, k);
      false
    else
      var b := Contains(hay[1..], needle);
      if b then
        var k :| OccursAt(hay[1..], needle, k);
        assert OccursAt(hay, needle, k + 1) by {
          assert hay[k + 1..k + 1 + |needle|] == hay[1..][k..k + |needle|];
        }
        true
      else
        assert forall k :: !OccursAt(hay, needle, k) by {
          forall k | OccursAt(hay, needle, k) ensures false {
            if k > 0 {
              assert hay[1..][k - 1..k - 1 + |needle|] == hay[k..k + |needle|];
              assert OccursAt(hay[1..], needle, k - 1);
            }
          }
        }
        false
  }

  // ---------------------------------------------------------------------------
  // strip() and lstrip(c)

  /** Python `str.isspace()` for one character. */
  predicate IsSpace(c: char)
  {
    || c == ' ' || '\t' <= c <= '\r' || '\U{1C}' <= c <= '\U{1F}'
    || c == '\U{85}' || c == '\U{A0}' || c == '\U{1680}' || '\U{2000}' <= c <= '\U{200A}'
    || c == '\U{2028}' || c == '\U{2029}' || c == '\U{202F}' || c == '\U{205F}' || c == '\U{3000}'
  }

  /** Python `s.lstrip(c)`: drops the longest prefix made of `c` only. */
  function LStrip(s: string, c: char): (r: string)
    ensures |r| <= |s| && r == s[|s| - |r|..]
    ensures r == [] || r[0] != c
    ensures forall i :: 0 <= i < |s| - |r| ==> s[i] == c
  {
    if s != [] && s[0] == c then LStrip(s[1..], c) else s
  }

  lemma LStripIdempotent(s: string, c: char)
    ensures LStrip(LStrip(s, c), c) == LStrip(s, c)
  {
  }

  /** Every character of `s` is white space in the sense of `space`. */
  predicate AllSpace(s: string, space: char -> bool)
  {
    forall i :: 0 <= i < |s| ==> space(s[i])
  }

  /** Drops the longest prefix of white space. */
  function TrimLeft(s: string, space: char -> bool): (r: string)
    ensures |r| <= |s| && r == s[|s| - |r|..]
    ensures r == [] || !space(r[0])
    ensures AllSpace(s[..|s| - |r|], space)
  {
    if s != [] && space(s[0]) then
      var r := TrimLeft(s[1..], space);
      TrimLeftStep(s, r, space);
      r
    else s
  }

  lemma TrimLeftStep(s: string, r: string, space: char -> bool)
    requires s != [] && space(s[0]) && |r| < |s|
    requires r == s[1..][|s| - 1 - |r|..] && AllSpace(s[1..][..|s| - 1 - |r|], space)
    ensures r == s[|s| - |r|..] && AllSpace(s[..|s| - |r|], space)
  {
    var k := |s| - |r|;
    var tail := s[1..][..k - 1];
    forall i | 0 <= i < k ensures space(s[..k][i]) {
      if i > 0 {
        assert s[..k][i] == tail[i - 1];
      }
    }
  }

  /** Drops the longest suffix of white space. */
  function TrimRight(s: string, space: char -> bool): (r: string)
    ensures |r| <= |s| && r == s[..|r|]
    ensures r == [] || !space(r[|r| - 1])
    ensures AllSpace(s[|r|..], space)
  {
    if s != [] && space(s[|s| - 1]) then
      var r := TrimRight(s[..|s| - 1], space);
      TrimRightStep(s, r, space);
      r
    else s
  }

  lemma TrimRightStep(s: string, r: string, space: char -> bool)
    requires s != [] && space(s[|s| - 1]) && |r| < |s|
    requires r == s[..|s| - 1][..|r|] && AllSpace(s[..|s| - 1][|r|..], space)
    ensures r == s[..|r|] && AllSpace(s[|r|..], space)
  {
    var head := s[..|s| - 1][|r|..];
    forall i | 0 <= i < |s| - |r| ensures space(s[|r|..][i]) {
      if i < |head| {
        assert s[|r|..][i] == head[i];
      }
    }
  }

  /** `r` sits at offset `i` of `s`, with only white space before and after it. */
  predicate StrippedAt(s: string, r: string, i: int, space: char -> bool)
  {
    OccursAt(s, r, i) && AllSpace(s[..i], space) && AllSpace(s[i + |r|..], space)
  }

  /** A white-space prefix taken off `s`, then a white-space suffix taken off the rest. */
  lemma StrippedFromParts(s: string, l: string, r: string, space: char -> bool)
    requires |l| <= |s| && l == s[|s| - |l|..] && AllSpace(s[..|s| - |l|], space)
    requires |r| <= |l| && r == l[..|r|] && AllSpace(l[|r|..], space)
    ensures StrippedAt(s, r, |s| - |l|, space)
  {
    var i := |s| - |l|;
    assert s[i..i + |r|] == r;
    assert s[i + |r|..] == l[|r|..];
  }

  /** `s` without its leading and trailing white space in the sense of `space`. */
  function StripWith(s: string, space: char -> bool): (r: string)
    ensures exists i :: StrippedAt(s, r, i, space)
    ensures r == [] || (!space(r[0]) && !space(r[|r| - 1]))
  {
    var l := TrimLeft(s, space);
    var r := TrimRight(l, space);
    StrippedFromParts(s, l, r, space);
    r
  }

  /** A string whose ends are not white space is its own strip. */
  lemma StripWithUnchanged(s: string, space: char -> bool)
    requires s == [] || (!space(s[0]) && !space(s[|s| - 1]))
    ensures StripWith(s, space) == s
  {
  }

  /** Python `s.strip()`: `s` minus its leading and trailing whitespace. */
  function Strip(s: string): (r: string)
    ensures exists i :: StrippedAt(s, r, i, IsSpace)
    ensures r == [] || (!IsSpace(r[0]) && !IsSpace(r[|r| - 1]))
  {
    StripWith(s, IsSpace)
  }

  lemma StripUnchanged(s: string)
    requires s == [] || (!IsSpace(s[0]) && !IsSpace(s[|s| - 1]))
    ensures Strip(s) == s
  {
    StripWithUnchanged(s, IsSpace);
  }

  // ---------------------------------------------------------------------------
  // str(n) for naturals, and its inverse

  function DigitChar(d: nat): char
    requires d < 10
  {
    ('0' as int + d) as char
  }

  predicate IsDigit(c: char)
  {
    '0' <= c <= '9'
  }

  /** Python `str(n)` for n >= 0: decimal, no leading zero except for `0` itself. */
  function NatToString(n: nat): (r: string)
    ensures |r| >= 1
    ensures forall i :: 0 <= i < |r| ==> IsDigit(r[i])
    ensures r[0] == '0' ==> n == 0 && r == "0"
  {
    if n < 10 then [DigitChar(n)] else NatToString(n / 10) + [DigitChar(n % 10)]
  }

  /** The value of a string of decimal digits. */
  function DecimalValue(s: string): nat
    requires forall i :: 0 <= i < |s| ==> IsDigit(s[i])
  {
    if s == [] then 0
    else
      assert IsDigit(s[|s| - 1]);
      DecimalValue(s[..|s| - 1]) * 10 + (s[|s| - 1] as int - '0' as int)
  }

  lemma {:induction false} DecimalRoundTrip(n: nat)
    ensures DecimalValue(NatToString(n)) == n
  {
    if n >= 10 {
      DecimalRoundTrip(n / 10);
      var s := NatToString(n);
      assert s[..|s| - 1] == NatToString(n / 10);
    }
  }

  // ---------------------------------------------------------------------------
  // string ordering (Python compares strings code point by code point)

  predicate LexLe(a: string, b: string)
  {
    a == [] || (b != [] && (a[0] < b[0] || (a[0] == b[0] && LexLe(a[1..], b[1..]))))
  }

  predicate LexLt(a: string, b: string)
  {
    LexLe(a, b) && a != b
  }

  /** Strings that agree up to position `k` and differ there are ordered by that character. */
  lemma {:induction false} LexLtAt(a: string, b: string, k: nat)
    requires k < |a| && k < |b| && a[k] < b[k]
    requires forall i :: 0 <= i < k ==> a[i] == b[i]
    ensures LexLe(a, b)
  {
    if k > 0 {
      assert a[0] == b[0];
      LexLtAt(a[1..], b[1..], k - 1);
    }
  }

  lemma {:induction false} LexLeTotal(a: string, b: string)
    ensures LexLe(a, b) || LexLe(b, a)
  {
    if a != [] && b != [] && a[0] == b[0] {
      LexLeTotal(a[1..], b[1..]);
    }
  }

  lemma {:induction false} LexLeTrans(a: string, b: string, c: string)
    requires LexLe(a, b) && LexLe(b, c)
    ensures LexLe(a, c)
  {
    if a != [] && b != [] && c != [] && a[0] == b[0] == c[0] {
      LexLeTrans(a[1..], b[1..], c[1..]);
    }
  }

  lemma {:induction false} LexLeAntisym(a: string, b: string)
    requires LexLe(a, b) && LexLe(b, a)
    ensures a == b
  {
    if a != [] && b != [] {
      LexLeAntisym(a[1..], b[1..]);
      assert a == [a[0]] + a[1..] && b == [b[0]] + b[1..];
    }
  }
}
