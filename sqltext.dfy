/**
 * The text that the note store's queries compare: SQLite's `LIKE` operator
 * (case-insensitive for ASCII letters, `%` for any run of characters and `_`
 * for any one character) and the `json.dumps` text of a note's label list,
 * which is what the `labels` column holds.
 */
module SqlText {

  /** SQLite's case folding for `LIKE`: only the ASCII letters A-Z. */
  function AsciiLower(c: char): (r: char)
    ensures 'A' <= c <= 'Z' ==> r as int == c as int + 32
    ensures !('A' <= c <= 'Z') ==> r == c
  {
    if 'A' <= c <= 'Z' then (c as int + 32) as char else c
  }

  predicate FoldEq(a: char, b: char) {
    AsciiLower(a) == AsciiLower(b)
  }

  predicate IsWildcard(c: char) {
    c == '%' || c == '_'
  }

  /** `t LIKE p` without an ESCAPE clause. */
  function LikeMatch(t: string, p: string): bool
    decreases |t| + |p|
  {
    if p == [] then t == []
    else if p[0] == '%' then LikeMatch(t, p[1..]) || (t != [] && LikeMatch(t[1..], p))
    else t != [] && (p[0] == '_' || FoldEq(t[0], p[0])) && LikeMatch(t[1..], p[1..])
  }

  /** `q` occurs in `t` when ASCII letters are compared without case. */
  ghost predicate ContainsFolded(t: string, q: string) {
    exists i :: OccursAt(t, q, i)
  }

  /** `q` folds onto the characters of `t` starting at `i`. */
  ghost predicate OccursAt(t: string, q: string, i: int) {
    0 <= i && i + |q| <= |t| && FoldEqSeq(t[i..i + |q|], q)
  }

  ghost predicate FoldEqSeq(a: string, b: string) {
    |a| == |b| && forall k :: 0 <= k < |a| ==> FoldEq(a[k], b[k])
  }

  lemma {:induction false} PercentMatchesAll(t: string)
    ensures LikeMatch(t, "%")
    decreases |t|
  {
    if t != [] {
      PercentMatchesAll(t[1..]);
    }
  }

  /** A leading `%` lets the rest of the pattern match any suffix of the text. */
  lemma {:induction false} LeadingPercent(t: string, r: string)
    ensures LikeMatch(t, "%" + r) <==> exists i :: 0 <= i <= |t| && LikeMatch(t[i..], r)
    decreases |t|
  {
    var p := "%" + r;
    assert p[1..] == r;
    if t == [] {
      assert t[0..] == t;
    } else {
      LeadingPercent(t[1..], r);
      if LikeMatch(t, p) {
        if !LikeMatch(t, r) {
          var i :| 0 <= i <= |t[1..]| && LikeMatch(t[1..][i..], r);
          assert t[1..][i..] == t[i + 1..];
        } else {
          assert t[0..] == t;
        }
      }
      if exists i :: 0 <= i <= |t| && LikeMatch(t[i..], r) {
        var i :| 0 <= i <= |t| && LikeMatch(t[i..], r);
        if i == 0 {
          assert t[0..] == t;
        } else {
          assert t[1..][i - 1..] == t[i..];
        }
      }
    }
  }

  /** A wildcard-free pattern followed by `%` matches exactly the texts it folds onto as a prefix. */
  lemma {:induction false} LiteralThenPercent(u: string, q: string)
    requires forall k :: 0 <= k < |q| ==> !IsWildcard(q[k])
    ensures LikeMatch(u, q + "%") <==> |q| <= |u| && FoldEqSeq(u[..|q|], q)
    decreases |q|
  {
    if q == [] {
      assert q + "%" == "%";
      PercentMatchesAll(u);
    } else {
      assert (q + "%")[1..] == q[1..] + "%";
      if u != [] {
        LiteralThenPercent(u[1..], q[1..]);
        if |q| <= |u| {
          assert u[..|q|] == [u[0]] + u[1..][..|q| - 1];
          if FoldEqSeq(u[..|q|], q) {
            assert FoldEqSeq(u[1..][..|q| - 1], q[1..]) by {
              forall k | 0 <= k < |q| - 1 ensures FoldEq(u[1..][..|q| - 1][k], q[1..][k]) {
                assert u[..|q|][k + 1] == u[1..][..|q| - 1][k];
              }
            }
          }
          if FoldEqSeq(u[1..][..|q| - 1], q[1..]) && FoldEq(u[0], q[0]) {
            forall k | 0 <= k < |q| ensures FoldEq(u[..|q|][k], q[k]) {
              if k > 0 {
                assert u[..|q|][k] == u[1..][..|q| - 1][k - 1];
              }
            }
          }
        }
      }
    }
  }

  /**
   * `t LIKE '%' || q || '%'` is a case-insensitive substring test whenever
   * the query holds no wildcard character.
   */
  lemma LikeIsSubstringSearch(t: string, q: string)
    requires forall k :: 0 <= k < |q| ==> !IsWildcard(q[k])
    ensures LikeMatch(t, "%" + q + "%") <==> ContainsFolded(t, q)
  {
    assert "%" + q + "%" == "%" + (q + "%");
    LeadingPercent(t, q + "%");
    if LikeMatch(t, "%" + q + "%") {
      var i :| 0 <= i <= |t| && LikeMatch(t[i..], q + "%");
      LiteralThenPercent(t[i..], q);
      assert t[i..][..|q|] == t[i..i + |q|];
      assert OccursAt(t, q, i);
    }
    if ContainsFolded(t, q) {
      var i :| OccursAt(t, q, i);
      LiteralThenPercent(t[i..], q);
      assert t[i..][..|q|] == t[i..i + |q|];
    }
  }

  predicate IsAscii(c: char) {
    c as int < 128
  }

  /** A literal non-ASCII character of the pattern must occur verbatim in any text it matches. */
  lemma {:induction false} NonAsciiMustOccur(t: string, p: string, k: nat)
    requires k < |p| && !IsWildcard(p[k]) && !IsAscii(p[k])
    requires LikeMatch(t, p)
    ensures p[k] in t
    decreases |t| + |p|
  {
    if p[0] == '%' {
      if LikeMatch(t, p[1..]) {
        NonAsciiMustOccur(t, p[1..], k - 1);
      } else {
        NonAsciiMustOccur(t[1..], p, k);
      }
    } else if k == 0 {
      assert AsciiLower(t[0]) == AsciiLower(p[0]);
      assert t[0] == p[0];
    } else {
      NonAsciiMustOccur(t[1..], p[1..], k - 1);
    }
  }

  // ---------------------------------------------------------------------------
  // json.dumps of a list of strings (ensure_ascii, default separators)
  // ---------------------------------------------------------------------------

  function HexDigit(d: nat): (c: char)
    requires d < 16
    ensures ' ' <= c <= '~'
  {
    if d < 10 then ('0' as int + d) as char else ('a' as int + d - 10) as char
  }

  /** Four lower-case hex digits, as in `é`. */
  function Hex4(n: nat): (s: string)
    requires n < 0x10000
    ensures |s| == 4 && forall i :: 0 <= i < 4 ==> ' ' <= s[i] <= '~'
  {
    [HexDigit(n / 4096), HexDigit(n / 256 % 16), HexDigit(n / 16 % 16), HexDigit(n % 16)]
  }

  /** How `json.dumps` writes one character inside a string literal. */
  function EscapeChar(c: char): (s: string)
    ensures forall i :: 0 <= i < |s| ==> ' ' <= s[i] <= '~'
  {
    if c == '"' then "\\\""
    else if c == '\\' then "\\\\"
    else if c == '\n' then "\\n"
    else if c == '\r' then "\\r"
    else if c == '\t' then "\\t"
    else if c as int == 8 then "\\b"
    else if c as int == 12 then "\\f"
    else if ' ' <= c <= '~' then [c]
    else if c as int < 0x10000 then "\\u" + Hex4(c as int)
    else
      var v := c as int - 0x10000;
      "\\u" + Hex4(0xD800 + v / 0x400) + "\\u" + Hex4(0xDC00 + v % 0x400)
  }

  function EscapeString(s: string): (r: string)
    ensures forall i :: 0 <= i < |r| ==> ' ' <= r[i] <= '~'
  {
    if s == [] then "" else EscapeChar(s[0]) + EscapeString(s[1..])
  }

  /** Printable ASCII other than `"` and `\\` is written as it is. */
  lemma {:induction false} EscapePlain(s: string)
    requires forall i :: 0 <= i < |s| ==> ' ' <= s[i] <= '~' && s[i] != '"' && s[i] != '\\'
    ensures EscapeString(s) == s
    decreases |s|
  {
    if s != [] {
      EscapePlain(s[1..]);
      assert s == [s[0]] + s[1..];
    }
  }

  function Quote(s: string): (r: string)
    ensures forall i :: 0 <= i < |r| ==> ' ' <= r[i] <= '~'
  {
    "\"" + EscapeString(s) + "\""
  }

  function JoinQuoted(ss: seq<string>): (r: string)
    ensures forall i :: 0 <= i < |r| ==> ' ' <= r[i] <= '~'
  {
    if ss == [] then ""
    else if |ss| == 1 then Quote(ss[0])
    else Quote(ss[0]) + ", " + JoinQuoted(ss[1..])
  }

  /** `json.dumps(labels)`: text made of printable ASCII only. */
  function DumpStrings(ss: seq<string>): (r: string)
    ensures forall i :: 0 <= i < |r| ==> IsAscii(r[i])
  {
    "[" + JoinQuoted(ss) + "]"
  }
}
