/** The JavaScript string operations the bot relies on: `String.prototype.includes`,
    template-literal rendering of integers, and reading a message back line by line. */
module Text {

  // ---------------------------------------------------------------------------
  // Substring search
  // ---------------------------------------------------------------------------

  /** `p` occurs in `s` starting at position `i`. */
  predicate OccursAt(s: string, p: string, i: int) {
    0 <= i && i + |p| <= |s| && s[i..i + |p|] == p
  }

  /** `s.includes(p)`: scans `s` from the left, and is true exactly when `p`
      occurs at some position. The empty pattern occurs everywhere. */
  function Includes(s: string, p: string): (b: bool)
    ensures b <==> exists i :: OccursAt(s, p, i)
    decreases |s|
  {
    if |s| < |p| then false
    else if s[..|p|] == p then
      assert OccursAt(s, p, 0);
      true
    else
      OccursInTail(s, p);
      Includes(s[1..], p)
  }

  /** When `p` is not a prefix of `s`, its occurrences in `s` are those in `s[1..]`, shifted by one. */
  lemma OccursInTail(s: string, p: string)
    requires |s| >= |p| && s[..|p|] != p
    ensures |s| > 0
    ensures (exists i :: OccursAt(s, p, i)) <==> (exists i :: OccursAt(s[1..], p, i))
  {
    if exists i :: OccursAt(s, p, i) {
      var i :| OccursAt(s, p, i);
      assert i > 0;
      assert s[1..][i - 1..i - 1 + |p|] == s[i..i + |p|];
      assert OccursAt(s[1..], p, i - 1);
    }
    if exists i :: OccursAt(s[1..], p, i) {
      var i :| OccursAt(s[1..], p, i);
      assert s[i + 1..i + 1 + |p|] == s[1..][i..i + |p|];
      assert OccursAt(s, p, i + 1);
    }
  }

  // ---------------------------------------------------------------------------
  // Decimal rendering
  // ---------------------------------------------------------------------------

  predicate IsDigit(c: char) {
    '0' <= c <= '9'
  }

  function DigitChar(d: nat): (c: char)
    requires d < 10
    ensures IsDigit(c)
  {
    "0123456789"[d]
  }

  function DigitValue(c: char): (d: nat)
    requires IsDigit(c)
    ensures d < 10
  {
    (c as int - '0' as int) as nat
  }

  /** `${n}` for a non-negative integer: the shortest decimal numeral. */
  function NatToString(n: nat): (s: string)
    ensures |s| >= 1
    ensures forall i :: 0 <= i < |s| ==> IsDigit(s[i])
    ensures s[0] == '0' ==> n == 0
  {
    if n < 10 then [DigitChar(n)]
    else NatToString(n / 10) + [DigitChar(n % 10)]
  }

  /** Reads a numeral made of digits back; the partner of `NatToString`. */
  function ParseNat(s: string): nat
    requires forall i :: 0 <= i < |s| ==> IsDigit(s[i])
  {
    if s == [] then 0
    else ParseNat(s[..|s| - 1]) * 10 + DigitValue(s[|s| - 1])
  }

  lemma {:induction false} ParseNatToString(n: nat)
    ensures ParseNat(NatToString(n)) == n
  {
    var s := NatToString(n);
    if n >= 10 {
      assert s[..|s| - 1] == NatToString(n / 10);
      ParseNatToString(n / 10);
    }
  }

  /** Distinct numbers render differently. */
  lemma NatToStringInjective(m: nat, n: nat)
    requires NatToString(m) == NatToString(n)
    ensures m == n
  {
    ParseNatToString(m);
    ParseNatToString(n);
  }

  /** `${i}` for any integer: a minus sign before the numeral of a negative one. */
  function IntToString(i: int): (s: string)
    ensures |s| >= 1
    ensures s[0] == '-' <==> i < 0
    ensures forall k :: (if i < 0 then 1 else 0) <= k < |s| ==> IsDigit(s[k])
  {
    if i < 0 then "-" + NatToString(-i) else NatToString(i)
  }

  /** Reads `IntToString` back. */
  function ParseInt(s: string): int
    requires |s| >= 1
    requires s[0] == '-' ==> forall i :: 1 <= i < |s| ==> IsDigit(s[i])
    requires s[0] != '-' ==> forall i :: 0 <= i < |s| ==> IsDigit(s[i])
  {
    if s[0] == '-' then -(ParseNat(s[1..]) as int) else ParseNat(s)
  }

  lemma IntToStringRoundTrip(i: int)
    ensures var s := IntToString(i);
      |s| >= 1 &&
      (s[0] == '-' ==> forall k :: 1 <= k < |s| ==> IsDigit(s[k])) &&
      (s[0] != '-' ==> forall k :: 0 <= k < |s| ==> IsDigit(s[k])) &&
      ParseInt(s) == i
  {
    var s := IntToString(i);
    if i < 0 {
      var m: nat := -i;
      assert s[1..] == NatToString(m) by {
        NegativeDigits(i);
      }
      assert ParseNat(NatToString(m)) == m by {
        ParseNatToString(m);
      }
    } else {
      assert ParseNat(NatToString(i)) == i by {
        ParseNatToString(i);
      }
    }
  }

  lemma NegativeDigits(i: int)
    requires i < 0
    ensures IntToString(i)[1..] == NatToString(-i)
  {
    assert IntToString(i) == "-" + NatToString(-i);
  }

  // ---------------------------------------------------------------------------
  // Lines
  // ---------------------------------------------------------------------------

  /** `s.split("\n")`: the pieces between newlines, always at least one. */
  function SplitLines(s: string): (r: seq<string>)
    ensures |r| >= 1
  {
    if s == [] then [[]]
    else
      var rest := SplitLines(s[1..]);
      if s[0] == '\n' then [[]] + rest
      else [[s[0]] + rest[0]] + rest[1..]
  }

  /** Everything up to the first newline is the first line. */
  lemma {:induction false} SplitLinesFirst(a: string, b: string)
    requires '\n' !in a
    ensures SplitLines(a + "\n" + b) == [a] + SplitLines(b)
    decreases |a|
  {
    var s := a + "\n" + b;
    if a == [] {
      assert s == "\n" + b;
      assert s[1..] == b;
    } else {
      assert s[1..] == a[1..] + "\n" + b;
      SplitLinesFirst(a[1..], b);
      assert [a[0]] + a[1..] == a;
    }
  }

  /** Concatenation of lines, each ended by a newline. */
  function JoinLines(lines: seq<string>): string {
    if lines == [] then "" else lines[0] + "\n" + JoinLines(lines[1..])
  }

  predicate NoNewline(s: string) {
    '\n' !in s
  }

  lemma NoNewlineConcat(a: string, b: string)
    requires NoNewline(a) && NoNewline(b)
    ensures NoNewline(a + b)
  {
  }

  lemma {:induction false} SplitLinesNoNewline(s: string)
    requires NoNewline(s)
    ensures SplitLines(s) == [s]
    decreases |s|
  {
    if s != [] {
      SplitLinesNoNewline(s[1..]);
      assert [s[0]] + s[1..] == s;
    }
  }

  /** Lines without newlines, each terminated, split back into the same lines
      followed by what the tail splits into. */
  lemma {:induction false} SplitJoinLines(lines: seq<string>, tail: string)
    requires forall i :: 0 <= i < |lines| ==> NoNewline(lines[i])
    ensures SplitLines(JoinLines(lines) + tail) == lines + SplitLines(tail)
    decreases |lines|
  {
    if lines == [] {
      assert JoinLines(lines) + tail == tail;
    } else {
      var rest := JoinLines(lines[1..]) + tail;
      assert JoinLines(lines) + tail == lines[0] + "\n" + rest;
      assert NoNewline(lines[0]);
      SplitLinesFirst(lines[0], rest);
      assert forall i :: 0 <= i < |lines[1..]| ==> lines[1..][i] == lines[i + 1];
      SplitJoinLines(lines[1..], tail);
      assert lines == [lines[0]] + lines[1..];
    }
  }

  /** A title, an empty line and then either one more line or a block of
      terminated lines: reading back by newlines recovers the pieces. */
  lemma SplitTitled(t: string, f: string)
    requires NoNewline(t) && NoNewline(f)
    ensures SplitLines(t + "\n\n" + f) == [t, "", f]
  {
    assert t + "\n\n" + f == t + "\n" + ([] + "\n" + f);
    SplitLinesFirst(t, [] + "\n" + f);
    SplitLinesFirst([], f);
    SplitLinesNoNewline(f);
  }

  lemma SplitJoinedLines(lines: seq<string>)
    requires forall i :: 0 <= i < |lines| ==> NoNewline(lines[i])
    ensures SplitLines(JoinLines(lines)) == lines + [[]]
  {
    var body := JoinLines(lines);
    assert body + [] == body;
    SplitJoinLines(lines, []);
  }

  lemma SplitTitledLines(t: string, lines: seq<string>)
    requires NoNewline(t)
    requires forall i :: 0 <= i < |lines| ==> NoNewline(lines[i])
    ensures SplitLines(t + "\n\n" + JoinLines(lines)) == [t, ""] + lines + [""]
  {
    var body := JoinLines(lines);
    SplitAfterTitle(t, body);
    SplitJoinedLines(lines);
  }

  /** A title line and an empty line in front of `body`. */
  lemma SplitAfterTitle(t: string, body: string)
    requires NoNewline(t)
    ensures SplitLines(t + "\n\n" + body) == [t, ""] + SplitLines(body)
  {
    var afterTitle := [] + "\n" + body;
    assert t + "\n\n" + body == t + "\n" + afterTitle;
    SplitLinesFirst(t, afterTitle);
    SplitLinesFirst([], body);
  }
}
