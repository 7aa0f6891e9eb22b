/**
  Text helpers standing in for the Python string built-ins the chatbot uses:
  str.strip(), str.lower(), "\n".join(...) and, as the inverse of the join,
  str.split("\n").
 */
module Text {

  datatype Option<+T> = None | Some(value: T)

  /** The code points Python's str.isspace() accepts, which str.strip() removes. */
  predicate IsSpace(c: char) {
    var k := c as int;
    (0x09 <= k <= 0x0D) || (0x1C <= k <= 0x20) || k == 0x85 || k == 0xA0 || k == 0x1680
    || (0x2000 <= k <= 0x200A) || k == 0x2028 || k == 0x2029 || k == 0x202F || k == 0x205F
    || k == 0x3000
  }

  predicate AllSpace(s: string) {
    forall i :: 0 <= i < |s| ==> IsSpace(s[i])
  }

  /** Neither end of the text is whitespace (vacuously true of the empty text). */
  predicate Stripped(s: string) {
    s == [] || (!IsSpace(s[0]) && !IsSpace(s[|s| - 1]))
  }

  /** Where the text starts: the first index at or after `k` that is not whitespace, or |s|. */
  function Begin(s: string, k: nat): (b: nat)
    requires k <= |s|
    ensures k <= b <= |s|
    ensures forall i :: k <= i < b ==> IsSpace(s[i])
    ensures b < |s| ==> !IsSpace(s[b])
    decreases |s| - k
  {
    if k == |s| || !IsSpace(s[k]) then k else Begin(s, k + 1)
  }

  /** Where the text ends: the last index `e` in [lo, hi] with s[e - 1] not whitespace, or lo. */
  function End(s: string, lo: nat, hi: nat): (e: nat)
    requires lo <= hi <= |s|
    ensures lo <= e <= hi
    ensures forall i :: e <= i < hi ==> IsSpace(s[i])
    ensures e > lo ==> !IsSpace(s[e - 1])
    decreases hi - lo
  {
    if hi == lo || !IsSpace(s[hi - 1]) then hi else End(s, lo, hi - 1)
  }

  /**
    Python's str.strip(): the result has no whitespace at either end, and is
    empty exactly when `s` is all whitespace (lemma StripSurroundings says what
    was removed).
   */
  function Strip(s: string): (r: string)
    ensures Stripped(r)
    ensures r == [] <==> AllSpace(s)
    ensures |r| <= |s|
  {
    var b := Begin(s, 0);
    var e := End(s, b, |s|);
    assert b < |s| ==> e > b;
    s[b..e]
  }

  /** Strip removes only whitespace, and only at the two ends: `s` is the result surrounded by whitespace. */
  lemma StripSurroundings(s: string)
    ensures var b := Begin(s, 0); var r := Strip(s);
      && b + |r| <= |s|
      && r == s[b..b + |r|]
      && (forall i :: 0 <= i < b ==> IsSpace(s[i]))
      && (forall i :: b + |r| <= i < |s| ==> IsSpace(s[i]))
  {
  }

  /**
    Strip is characterised by its contract: whenever `s` is `m` surrounded by
    whitespace and `m` has no whitespace at either end, stripping `s` yields `m`.
   */
  lemma StripUnique(s: string, before: string, m: string, after: string)
    requires s == before + m + after
    requires AllSpace(before) && AllSpace(after) && Stripped(m)
    ensures Strip(s) == m
  {
    assert forall i :: 0 <= i < |before| ==> s[i] == before[i];
    assert forall i :: 0 <= i < |after| ==> s[|before| + |m| + i] == after[i];
    if m != [] {
      var b := Begin(s, 0);
      assert s[|before|] == m[0];
      assert b == |before|;
      var e := End(s, b, |s|);
      assert s[|before| + |m| - 1] == m[|m| - 1];
      assert e == |before| + |m|;
      assert s[b..e] == m;
    }
  }

  lemma StripIdempotent(s: string)
    ensures Strip(Strip(s)) == Strip(s)
  {
    StripUnique(Strip(s), [], Strip(s), []);
  }

  /** ASCII lower-casing of one character. */
  function LowerChar(c: char): char {
    if 'A' <= c <= 'Z' then (c as int + 32) as char else c
  }

  /** Python's str.lower(), on the ASCII letters only. */
  function ToLower(s: string): (r: string)
    ensures |r| == |s|
    ensures forall i :: 0 <= i < |s| ==> r[i] == LowerChar(s[i])
  {
    if s == [] then [] else [LowerChar(s[0])] + ToLower(s[1..])
  }

  /** Python's `sep.join(lines)`. */
  function Join(lines: seq<string>, sep: string): string {
    if |lines| == 0 then []
    else if |lines| == 1 then lines[0]
    else lines[0] + sep + Join(lines[1..], sep)
  }

  /** Python's `s.split("\n")`: always at least one piece, none holding a newline. */
  function SplitLines(s: string): (pieces: seq<string>)
    ensures |pieces| >= 1
    ensures forall k :: 0 <= k < |pieces| ==> '\n' !in pieces[k]
  {
    if |s| == 0 then [[]]
    else
      var rest := SplitLines(s[1..]);
      if s[0] == '\n' then [[]] + rest else [[s[0]] + rest[0]] + rest[1..]
  }

  lemma {:induction false} SplitSingleLine(line: string)
    requires '\n' !in line
    ensures SplitLines(line) == [line]
  {
    if line != [] {
      SplitSingleLine(line[1..]);
      assert [line[0]] + line[1..] == line;
    }
  }

  lemma {:induction false} SplitAfterLine(line: string, tail: string)
    requires '\n' !in line
    ensures SplitLines(line + "\n" + tail) == [line] + SplitLines(tail)
  {
    var s := line + "\n" + tail;
    if line == [] {
      assert s[1..] == tail;
    } else {
      assert s[1..] == line[1..] + "\n" + tail;
      SplitAfterLine(line[1..], tail);
      assert [line[0]] + line[1..] == line;
    }
  }

  /** Splitting on newlines undoes joining with newlines, for newline-free lines. */
  lemma {:induction false} SplitJoin(lines: seq<string>)
    requires |lines| >= 1
    requires forall k :: 0 <= k < |lines| ==> '\n' !in lines[k]
    ensures SplitLines(Join(lines, "\n")) == lines
  {
    if |lines| == 1 {
      SplitSingleLine(lines[0]);
    } else {
      SplitJoin(lines[1..]);
      SplitAfterLine(lines[0], Join(lines[1..], "\n"));
      assert [lines[0]] + lines[1..] == lines;
    }
  }

  /** Joining a non-empty list whose first line is non-empty gives a non-empty text. */
  lemma JoinNonEmpty(lines: seq<string>, sep: string)
    requires |lines| >= 1 && lines[0] != []
    ensures |Join(lines, sep)| >= |lines[0]|
  {
  }
}
